/** The JavaScript string primitives the quiz parser relies on: `trim`, the
    regular-expression classes `\s`, `\d` and `[A-Z,]`, `split` on one character,
    `startsWith` and `includes`. */
module Text {

  /** The characters `String.prototype.trim` removes and `\s` matches: the
      WhiteSpace and LineTerminator code points of ECMA-262. */
  predicate IsWhitespace(c: char) {
    c == '\t' || c == '\n' || c == '\U{000B}' || c == '\U{000C}' || c == '\r' || c == ' '
    || c == '\U{00A0}' || c == '\U{1680}' || ('\U{2000}' <= c <= '\U{200A}')
    || c == '\U{2028}' || c == '\U{2029}' || c == '\U{202F}' || c == '\U{205F}'
    || c == '\U{3000}' || c == '\U{FEFF}'
  }

  /** `\d`: an ASCII digit. */
  predicate IsDigit(c: char) {
    '0' <= c <= '9'
  }

  /** The character classes the parser's patterns use: `\s`, `\d` and the
      answer key's `[A-Z,]`. */
  datatype CharClass = Space | Digit | KeyChar

  predicate InClass(c: char, cls: CharClass) {
    match cls
    case Space => IsWhitespace(c)
    case Digit => IsDigit(c)
    case KeyChar => ('A' <= c <= 'Z') || c == ','
  }

  /** Length of the longest prefix of `s` whose characters all belong to `cls`. */
  function Span(s: string, cls: CharClass): (n: nat)
    ensures n <= |s|
  {
    if |s| > 0 && InClass(s[0], cls) then 1 + Span(s[1..], cls) else 0
  }

  /** `Span` stops at the first character that is not in `cls`. */
  lemma {:induction false} SpanSpec(s: string, cls: CharClass)
    ensures forall j :: 0 <= j < Span(s, cls) ==> InClass(s[j], cls)
    ensures Span(s, cls) < |s| ==> !InClass(s[Span(s, cls)], cls)
  {
    if |s| > 0 && InClass(s[0], cls) {
      SpanSpec(s[1..], cls);
    }
  }

  /** Length of the longest suffix of `s` whose characters all belong to `cls`. */
  function SpanBack(s: string, cls: CharClass): (n: nat)
    ensures n <= |s|
  {
    if |s| > 0 && InClass(s[|s| - 1], cls) then 1 + SpanBack(s[..|s| - 1], cls) else 0
  }

  /** `SpanBack` stops at the last character that is not in `cls`. */
  lemma {:induction false} SpanBackSpec(s: string, cls: CharClass)
    ensures forall j :: |s| - SpanBack(s, cls) <= j < |s| ==> InClass(s[j], cls)
    ensures SpanBack(s, cls) < |s| ==> !InClass(s[|s| - SpanBack(s, cls) - 1], cls)
  {
    if |s| > 0 && InClass(s[|s| - 1], cls) {
      SpanBackSpec(s[..|s| - 1], cls);
    }
  }

  // `s.replace(/^\s*/, '')`: leading whitespace removed.
  function TrimStart(s: string): (r: string)
    ensures |r| <= |s| && r == s[|s| - |r|..]
    ensures r == [] || !IsWhitespace(r[0])
  {
    SpanSpec(s, Space);
    s[Span(s, Space)..]
  }

  /** What `TrimStart` removes is whitespace. */
  lemma TrimStartRemoves(s: string)
    ensures forall j :: 0 <= j < |s| - |TrimStart(s)| ==> IsWhitespace(s[j])
  {
    SpanSpec(s, Space);
  }

  /** `s.trim()`: leading and trailing whitespace removed. */
  function Trim(s: string): (r: string)
    ensures r == [] || (!IsWhitespace(r[0]) && !IsWhitespace(r[|r| - 1]))
  {
    var t := TrimStart(s);
    SpanBackSpec(t, Space);
    t[..|t| - SpanBack(t, Space)]
  }

  /** `trim` returns a slice of its input, and leaves a string with no
      whitespace in it unchanged. */
  lemma TrimIsSlice(s: string)
    ensures exists a :: 0 <= a <= |s| && Trim(s) <= s[a..]
    ensures (forall j :: 0 <= j < |s| ==> !IsWhitespace(s[j])) ==> Trim(s) == s
  {
    var t := TrimStart(s);
    assert Trim(s) <= s[|s| - |t|..];
    if forall j :: 0 <= j < |s| ==> !IsWhitespace(s[j]) {
      if s != [] {
        TrimUntouched(s);
      }
    }
  }

  /** `trim` removes exactly a whitespace prefix and a whitespace suffix:
      what remains is a slice of the input, and every character cut off on
      either side is whitespace. */
  lemma TrimRemoves(s: string)
    ensures exists a, b :: 0 <= a <= b <= |s| && Trim(s) == s[a..b]
              && (forall j :: 0 <= j < a ==> IsWhitespace(s[j]))
              && (forall j :: b <= j < |s| ==> IsWhitespace(s[j]))
  {
    var a := Span(s, Space);
    var b := |s| - SpanBack(s[a..], Space);
    TrimCuts(s, a, b);
  }

  /** `trim` returns the empty string exactly on a string of whitespace. */
  lemma TrimEmpty(s: string)
    ensures Trim(s) == [] <==> forall j :: 0 <= j < |s| ==> IsWhitespace(s[j])
  {
    var a := Span(s, Space);
    var b := |s| - SpanBack(s[a..], Space);
    TrimCuts(s, a, b);
    if Trim(s) != [] {
      assert s[a] == Trim(s)[0];
    }
  }

  /** The cut points of `trim`: after the leading whitespace, and before the
      trailing whitespace of what is left. */
  lemma TrimCuts(s: string, a: nat, b: int)
    requires a == Span(s, Space) && b == |s| - SpanBack(s[a..], Space)
    ensures a <= b <= |s| && Trim(s) == s[a..b]
    ensures forall j :: 0 <= j < a ==> IsWhitespace(s[j])
    ensures forall j :: b <= j < |s| ==> IsWhitespace(s[j])
  {
    TrimSlice(s, a, b);
    TrimStartRemoves(s);
    TrailingSpace(s, a);
  }

  /** `trim` keeps the slice between its two cut points. */
  lemma TrimSlice(s: string, a: nat, b: int)
    requires a == Span(s, Space) && b == |s| - SpanBack(s[a..], Space)
    ensures a <= b <= |s| && Trim(s) == s[a..b]
  {
    var t := s[a..];
    var r := t[..|t| - SpanBack(t, Space)];
    assert Trim(s) == r by {
      assert TrimStart(s) == t;
    }
    assert r == s[a..b] by {
      DropTake(s, a, |t| - SpanBack(t, Space));
    }
  }

  /** Taking `n` characters after dropping `a` is the slice `a..a + n`. */
  lemma DropTake(s: string, a: nat, n: nat)
    requires a + n <= |s|
    ensures s[a..][..n] == s[a..a + n]
  {
  }

  /** The trailing whitespace of a suffix of `s` is trailing whitespace of `s`. */
  lemma TrailingSpace(s: string, a: nat)
    requires a <= |s|
    ensures forall j :: |s| - SpanBack(s[a..], Space) <= j < |s| ==> IsWhitespace(s[j])
  {
    var t := s[a..];
    SpanBackSpec(t, Space);
    forall j | |s| - SpanBack(t, Space) <= j < |s|
      ensures IsWhitespace(s[j])
    {
      assert InClass(t[j - a], Space);
      assert s[j] == t[j - a];
    }
  }

  /** `trim` leaves a string alone when neither end is whitespace. */
  lemma TrimUntouched(s: string)
    requires s == [] || (!IsWhitespace(s[0]) && !IsWhitespace(s[|s| - 1]))
    ensures Trim(s) == s
  {
    assert Span(s, Space) == 0;
    assert TrimStart(s) == s;
    assert SpanBack(s, Space) == 0;
  }

  /** `s.startsWith(p)`. */
  predicate StartsWith(s: string, p: string) {
    |p| <= |s| && s[..|p|] == p
  }

  /** `s.includes(p)`: `p` occurs in `s` at some position. */
  predicate Includes(s: string, p: string)
    decreases |s|
  {
    StartsWith(s, p) || (|s| > 0 && Includes(s[1..], p))
  }

  /** `s.split(sep)` for a one-character separator: the maximal
      separator-free pieces, in order. */
  function Split(s: string, sep: char): (parts: seq<string>)
    ensures |parts| >= 1
  {
    if |s| == 0 then [""]
    else
      var rest := Split(s[1..], sep);
      if s[0] == sep then [""] + rest
      else [[s[0]] + rest[0]] + rest[1..]
  }

  /** Every piece `Split` returns is made of characters of `s` other than the separator. */
  lemma {:induction false} SplitPieces(s: string, sep: char)
    ensures forall k :: 0 <= k < |Split(s, sep)| ==> forall c :: c in Split(s, sep)[k] ==> c in s && c != sep
  {
    if |s| > 0 {
      SplitPieces(s[1..], sep);
      var rest := Split(s[1..], sep);
      assert forall c :: c in s[1..] ==> c in s;
      if s[0] == sep {
        assert forall k :: 1 <= k <= |rest| ==> Split(s, sep)[k] == rest[k - 1];
      } else {
        assert forall k :: 1 <= k < |rest| ==> Split(s, sep)[k] == rest[k];
        assert Split(s, sep)[0] == [s[0]] + rest[0];
      }
    }
  }

  /** `parts.join(sep)`: the inverse of `Split`. */
  function Join(parts: seq<string>, sep: char): string
  {
    if |parts| == 0 then ""
    else if |parts| == 1 then parts[0]
    else parts[0] + [sep] + Join(parts[1..], sep)
  }

  /** Splitting and joining again gives back the original text. */
  lemma {:induction false} JoinSplit(s: string, sep: char)
    ensures Join(Split(s, sep), sep) == s
  {
    if |s| == 0 {
    } else if s[0] == sep {
      JoinSplit(s[1..], sep);
      assert s == [sep] + s[1..];
    } else {
      JoinSplit(s[1..], sep);
      var rest := Split(s[1..], sep);
      if |rest| == 1 {
        assert s == [s[0]] + s[1..];
      } else {
        assert s == [s[0]] + s[1..];
        assert [[s[0]] + rest[0]] + rest[1..] == [[s[0]] + rest[0]] + rest[1..];
        assert ([[s[0]] + rest[0]] + rest[1..])[1..] == rest[1..];
      }
    }
  }

  /** Joining separator-free pieces and splitting again gives back the pieces. */
  lemma {:induction false} SplitJoin(parts: seq<string>, sep: char)
    requires |parts| >= 1
    requires forall k :: 0 <= k < |parts| ==> sep !in parts[k]
    ensures Split(Join(parts, sep), sep) == parts
  {
    if |parts| == 1 {
      SplitNoSeparator(parts[0], sep);
    } else {
      SplitJoin(parts[1..], sep);
      SplitPrefix(parts[0], Join(parts[1..], sep), sep);
      assert parts == [parts[0]] + parts[1..];
    }
  }

  /** A separator-free text splits into itself. */
  lemma {:induction false} SplitNoSeparator(s: string, sep: char)
    requires sep !in s
    ensures Split(s, sep) == [s]
  {
    if |s| > 0 {
      SplitNoSeparator(s[1..], sep);
      assert s == [s[0]] + s[1..];
    }
  }

  /** Splitting `a + [sep] + b` with `a` separator-free gives `a` in front of the pieces of `b`. */
  lemma {:induction false} SplitPrefix(a: string, b: string, sep: char)
    requires sep !in a
    ensures Split(a + [sep] + b, sep) == [a] + Split(b, sep)
  {
    if |a| == 0 {
      assert a + [sep] + b == [sep] + b;
      assert ([sep] + b)[1..] == b;
    } else {
      SplitPrefix(a[1..], b, sep);
      assert (a + [sep] + b)[1..] == a[1..] + [sep] + b;
      assert a == [a[0]] + a[1..];
    }
  }
}
