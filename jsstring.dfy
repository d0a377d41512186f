/** The JavaScript string built-ins that the BirdTag forms rely on, written
    out over `seq<char>`: `String.prototype.split` with a one-character
    separator, `trim`, `toLowerCase`, `includes`, `startsWith`, the regular
    expression test `/\d/`, and the `.map(...).filter(Boolean)` chain the
    forms use to turn a text field into a list of tokens. */
module JsString {

  // ---------------------------------------------------------------------
  // Whitespace and trim
  // ---------------------------------------------------------------------

  /** ECMAScript WhiteSpace and LineTerminator code points: the characters
      `String.prototype.trim` (and `Number(...)`) strip. */
  predicate IsWhitespace(c: char) {
    || c == '\t' || c == '\n' || c == '\U{B}' || c == '\U{C}' || c == '\r'
    || c == ' ' || c == '\U{A0}' || c == '\U{1680}'
    || ('\U{2000}' <= c <= '\U{200A}')
    || c == '\U{2028}' || c == '\U{2029}' || c == '\U{202F}' || c == '\U{205F}'
    || c == '\U{3000}' || c == '\U{FEFF}'
  }

  predicate AllWhitespace(s: string) {
    forall i :: 0 <= i < |s| ==> IsWhitespace(s[i])
  }

  /** A string with no whitespace at either end. */
  predicate IsTrimmed(s: string) {
    s == [] || (!IsWhitespace(s[0]) && !IsWhitespace(s[|s| - 1]))
  }

  // TrimStart and TrimEnd state in their contracts only facts about the
  // ends of the result; how the result sits inside `s` is stated by
  // TrimStartSplit and TrimEndSplit, which a proof calls where it needs it.

  /** Leading whitespace removed: what is kept does not start with
      whitespace (and, by TrimStartSplit, is a suffix of `s` after an
      all-whitespace prefix). */
  function TrimStart(s: string): (r: string)
    ensures |r| <= |s|
    ensures r == [] || !IsWhitespace(r[0])
  {
    if s != [] && IsWhitespace(s[0]) then TrimStart(s[1..]) else s
  }

  /** Trailing whitespace removed, the mirror image of TrimStart: what is
      kept does not end with whitespace and starts where `s` does (and, by
      TrimEndSplit, is a prefix of `s` before an all-whitespace suffix). */
  function TrimEnd(s: string): (r: string)
    ensures |r| <= |s|
    ensures r == [] || !IsWhitespace(r[|r| - 1])
    ensures r != [] ==> r[0] == s[0]
  {
    if s != [] && IsWhitespace(s[|s| - 1]) then TrimEnd(s[..|s| - 1]) else s
  }

  /** TrimStart splits `s` into the whitespace it drops and what it keeps. */
  lemma {:induction false} TrimStartSplit(s: string)
    ensures s == s[..|s| - |TrimStart(s)|] + TrimStart(s)
    ensures AllWhitespace(s[..|s| - |TrimStart(s)|])
    decreases |s|
  {
    if s != [] && IsWhitespace(s[0]) {
      var u := s[1..];
      TrimStartSplit(u);
      var m := |u| - |TrimStart(u)|;
      assert s == [s[0]] + u;
      assert s[..m + 1] == [s[0]] + u[..m];
    } else {
      assert s[..0] + s == s;
    }
  }

  /** TrimEnd splits `s` into what it keeps and the whitespace it drops. */
  lemma {:induction false} TrimEndSplit(s: string)
    ensures s == TrimEnd(s) + s[|TrimEnd(s)|..]
    ensures AllWhitespace(s[|TrimEnd(s)|..])
    decreases |s|
  {
    if s != [] && IsWhitespace(s[|s| - 1]) {
      var u := s[..|s| - 1];
      TrimEndSplit(u);
      var k := |TrimEnd(u)|;
      assert s == u + [s[|s| - 1]];
      assert s[k..] == u[k..] + [s[|s| - 1]];
    } else {
      assert s + s[|s|..] == s;
    }
  }

  /** `s.trim()`: TrimStart then TrimEnd, so what is kept is the infix of
      `s` between its leading and trailing whitespace; it is free of
      whitespace at both ends. */
  function Trim(s: string): (r: string)
    ensures IsTrimmed(r)
  {
    var t := TrimStart(s);
    TrimEnd(t)
  }

  /** Trimming an already trimmed string changes nothing. */
  lemma TrimmedIsFixed(s: string)
    requires IsTrimmed(s)
    ensures Trim(s) == s
  {
    assert TrimStart(s) == s;
    assert TrimEnd(s) == s;
  }

  /** `trim` is idempotent. */
  lemma TrimIdempotent(s: string)
    ensures Trim(Trim(s)) == Trim(s)
  {
    TrimmedIsFixed(Trim(s));
  }

  /** `s.trim()` is the empty string exactly when `s` is all whitespace. */
  lemma TrimEmptyIff(s: string)
    ensures Trim(s) == [] <==> AllWhitespace(s)
  {
    if AllWhitespace(s) {
      AllWhitespaceTrimStart(s);
    } else if Trim(s) == [] {
      TrimStartSplit(s);
      TrimEndSplit(TrimStart(s));
    }
  }

  lemma {:induction false} AllWhitespaceTrimStart(s: string)
    requires AllWhitespace(s)
    ensures TrimStart(s) == []
    decreases |s|
  {
    if s != [] {
      assert IsWhitespace(s[0]);
      AllWhitespaceTrimStart(s[1..]);
    }
  }

  // ---------------------------------------------------------------------
  // Characters: digits and case
  // ---------------------------------------------------------------------

  /** What `\d` matches in a JavaScript regular expression without the `u`
      flag: the ASCII decimal digits. */
  predicate IsDigit(c: char) {
    '0' <= c <= '9'
  }

  /** `/\d/.test(s)`. */
  predicate HasDigit(s: string) {
    exists i :: 0 <= i < |s| && IsDigit(s[i])
  }

  predicate IsUpper(c: char) {
    ('A' <= c <= 'Z') || ('\U{C0}' <= c <= '\U{DE}' && c != '\U{D7}')
  }

  /** The small letters of Basic Latin and Latin-1 that have a capital
      there. */
  predicate IsLower(c: char) {
    ('a' <= c <= 'z') || ('\U{E0}' <= c <= '\U{FE}' && c != '\U{F7}')
  }

  /** Upper-casing of one character over the same range: a small letter
      moves 32 code points up. */
  function UpperChar(c: char): (r: char)
    ensures IsLower(c) ==> IsUpper(r)
    ensures !IsLower(c) ==> r == c
  {
    if IsLower(c) then (c as int - 32) as char else c
  }

  /** Lower-casing of one character, over Basic Latin and Latin-1: an
      upper-case letter becomes its own small letter, which upper-cases
      back to it; all else is kept. */
  function LowerChar(c: char): (r: char)
    ensures !IsUpper(r)
    ensures IsWhitespace(r) <==> IsWhitespace(c)
    ensures IsDigit(r) <==> IsDigit(c)
    ensures !IsUpper(c) ==> r == c
    ensures IsUpper(c) ==> 'a' <= r && IsLower(r) && UpperChar(r) == c
  {
    if IsUpper(c) then (c as int + 32) as char else c
  }

  /** Lower- and upper-casing are inverse on letters: a small letter
      lower-cases back from its capital, and two characters lower-case to
      the same one exactly when they are equal or one is the other's
      capital, so names that differ in more than case stay apart. */
  lemma CaseRoundTrip(c: char, d: char)
    ensures IsLower(c) ==> LowerChar(UpperChar(c)) == c
    ensures LowerChar(c) == LowerChar(d) <==> c == d || UpperChar(c) == d || UpperChar(d) == c
  {
  }

  /** `s.toLowerCase()`, character by character. */
  function ToLower(s: string): (r: string)
    ensures |r| == |s|
    ensures forall i :: 0 <= i < |s| ==> r[i] == LowerChar(s[i])
  {
    seq(|s|, i requires 0 <= i < |s| => LowerChar(s[i]))
  }

  predicate IsLowerCase(s: string) {
    forall i :: 0 <= i < |s| ==> !IsUpper(s[i])
  }

  /** Lower-casing yields a lower-case string and is idempotent. */
  lemma ToLowerIsLowerCase(s: string)
    ensures IsLowerCase(ToLower(s))
    ensures ToLower(ToLower(s)) == ToLower(s)
  {
  }

  /** Lower-casing keeps a trimmed string trimmed, and adds or removes no
      digit. */
  lemma ToLowerKeeps(s: string)
    ensures IsTrimmed(s) ==> IsTrimmed(ToLower(s))
    ensures HasDigit(ToLower(s)) <==> HasDigit(s)
  {
    var r := ToLower(s);
    if HasDigit(s) {
      var i :| 0 <= i < |s| && IsDigit(s[i]);
      assert IsDigit(r[i]);
    }
    if HasDigit(r) {
      var i :| 0 <= i < |r| && IsDigit(r[i]);
      assert IsDigit(s[i]);
    }
  }

  // ---------------------------------------------------------------------
  // Substrings
  // ---------------------------------------------------------------------

  /** `s.startsWith(p)`. */
  predicate StartsWith(s: string, p: string) {
    |p| <= |s| && s[..|p|] == p
  }

  /** `p` occurs in `s` starting at offset `i`. */
  predicate OccursAt(s: string, p: string, i: nat) {
    i + |p| <= |s| && forall k :: 0 <= k < |p| ==> s[i + k] == p[k]
  }

  /** `s.includes(p)`: `p` occurs in `s` at some offset. */
  predicate Includes(s: string, p: string) {
    exists i: nat :: i <= |s| && OccursAt(s, p, i)
  }

  // ---------------------------------------------------------------------
  // split
  // ---------------------------------------------------------------------

  /** Number of occurrences of `c` in `s`. */
  function Occurrences(s: string, c: char): nat {
    if s == [] then 0 else (if s[0] == c then 1 else 0) + Occurrences(s[1..], c)
  }

  /** `s.split(sep)` for a one-character separator: the maximal separator-free
      pieces between separators, always at least one (`"".split(",")` is
      `[""]`) and one more than the separators in `s`. */
  function Split(s: string, sep: char): (parts: seq<string>)
    ensures |parts| == Occurrences(s, sep) + 1
    ensures forall k :: 0 <= k < |parts| ==> sep !in parts[k]
    decreases |s|
  {
    if s == [] then [[]]
    else
      var rest := Split(s[1..], sep);
      if s[0] == sep then [[]] + rest
      else [[s[0]] + rest[0]] + rest[1..]
  }

  /** `parts.join(sep)`, the inverse of Split. */
  function Join(parts: seq<string>, sep: char): string
    requires |parts| >= 1
  {
    if |parts| == 1 then parts[0] else parts[0] + [sep] + Join(parts[1..], sep)
  }

  /** Joining the pieces of a split gives the original string back. */
  lemma {:induction false} JoinSplit(s: string, sep: char)
    ensures Join(Split(s, sep), sep) == s
    decreases |s|
  {
    if s != [] {
      var rest := Split(s[1..], sep);
      JoinSplit(s[1..], sep);
      if s[0] != sep {
        if |rest| == 1 {
          assert Join(Split(s, sep), sep) == [s[0]] + rest[0];
        } else {
          assert rest == [rest[0]] + rest[1..];
          assert Join(rest, sep) == rest[0] + [sep] + Join(rest[1..], sep);
          assert Join(Split(s, sep), sep) == ([s[0]] + rest[0]) + [sep] + Join(rest[1..], sep);
        }
      }
    }
  }

  /** A string without the separator splits into itself alone. */
  lemma {:induction false} SplitWithoutSeparator(s: string, sep: char)
    requires sep !in s
    ensures Split(s, sep) == [s]
    decreases |s|
  {
    if s != [] {
      SplitWithoutSeparator(s[1..], sep);
      assert [s[0]] + s[1..] == s;
    }
  }

  /** The pieces of `a + [sep] + b` are those of `a` followed by those of `b`:
      split keeps the order of its pieces. */
  lemma {:induction false} SplitAppend(a: string, b: string, sep: char)
    ensures Split(a + [sep] + b, sep) == Split(a, sep) + Split(b, sep)
    decreases |a|
  {
    var s := a + [sep] + b;
    if a == [] {
      assert s[1..] == b;
    } else {
      assert s[1..] == a[1..] + [sep] + b;
      SplitAppend(a[1..], b, sep);
    }
  }

  /** Splitting a join of separator-free pieces gives the pieces back. */
  lemma {:induction false} SplitJoin(parts: seq<string>, sep: char)
    requires |parts| >= 1
    requires forall k :: 0 <= k < |parts| ==> sep !in parts[k]
    ensures Split(Join(parts, sep), sep) == parts
    decreases |parts|
  {
    SplitWithoutSeparator(parts[0], sep);
    if |parts| > 1 {
      SplitJoin(parts[1..], sep);
      SplitAppend(parts[0], Join(parts[1..], sep), sep);
      assert parts == [parts[0]] + parts[1..];
    }
  }

  /** `s.split(sep)` has a second piece exactly when `sep` occurs in `s`. */
  lemma {:induction false} OccurrencesPositive(s: string, c: char)
    ensures Occurrences(s, c) > 0 <==> c in s
    decreases |s|
  {
    if s != [] {
      OccurrencesPositive(s[1..], c);
      assert s == [s[0]] + s[1..];
    }
  }

  // ---------------------------------------------------------------------
  // .split(sep).map(f).filter(Boolean)
  // ---------------------------------------------------------------------

  /** `xs.filter(p)`: the elements satisfying `p`, in order (FilterMembers
      says which are kept). */
  function Filter<T>(xs: seq<T>, p: T -> bool): (ys: seq<T>)
    ensures |ys| <= |xs|
  {
    if xs == [] then []
    else if p(xs[0]) then [xs[0]] + Filter(xs[1..], p)
    else Filter(xs[1..], p)
  }

  /** The filter keeps every element satisfying `p`, and nothing else. */
  lemma {:induction false} FilterMembers<T>(xs: seq<T>, p: T -> bool, y: T)
    ensures y in Filter(xs, p) <==> y in xs && p(y)
    decreases |xs|
  {
    if xs != [] {
      FilterMembers(xs[1..], p, y);
      assert xs == [xs[0]] + xs[1..];
    }
  }

  /** The filter keeps the relative order of what it keeps. */
  lemma {:induction false} FilterAppend<T>(a: seq<T>, b: seq<T>, p: T -> bool)
    ensures Filter(a + b, p) == Filter(a, p) + Filter(b, p)
    decreases |a|
  {
    if a != [] {
      assert (a + b)[1..] == a[1..] + b;
      FilterAppend(a[1..], b, p);
    } else {
      assert a + b == b;
    }
  }

  /** A filter that keeps an element exactly when `p` holds for it keeps
      nothing exactly when `p` holds for no element. */
  lemma FilterEmptyIff<T>(xs: seq<T>, p: T -> bool)
    ensures Filter(xs, p) == [] <==> forall k :: 0 <= k < |xs| ==> !p(xs[k])
  {
    if Filter(xs, p) == [] {
      forall k | 0 <= k < |xs| ensures !p(xs[k]) {
        FilterMembers(xs, p, xs[k]);
      }
    } else {
      FilterMembers(xs, p, Filter(xs, p)[0]);
    }
  }

  /** `.filter(Boolean)` on strings: the empty string is the only falsy one. */
  function NonEmpty(xs: seq<string>): seq<string> {
    Filter(xs, (s: string) => s != [])
  }

  /** `.map(f)` on a list of strings. */
  function MapEach(xs: seq<string>, f: string -> string): (ys: seq<string>)
  {
    seq(|xs|, k requires 0 <= k < |xs| => f(xs[k]))
  }

  /** `.map(f)` of a concatenation is the concatenation of the maps. */
  lemma MapEachAppend(xs: seq<string>, ys: seq<string>, f: string -> string)
    ensures MapEach(xs + ys, f) == MapEach(xs, f) + MapEach(ys, f)
  {
  }

  /** `text.split(sep).map(f).filter(Boolean)`: the non-empty results of
      `f` on the pieces of `text`. */
  function Tokens(text: string, sep: char, f: string -> string): seq<string> {
    NonEmpty(MapEach(Split(text, sep), f))
  }

  /** Tokens of a separator-free text: the one piece, if `f` leaves it
      non-empty. */
  lemma TokensOfPiece(s: string, sep: char, f: string -> string)
    requires sep !in s
    ensures Tokens(s, sep, f) == if f(s) == [] then [] else [f(s)]
  {
    SplitWithoutSeparator(s, sep);
    assert MapEach([s], f) == [f(s)];
  }

  /** The tokens of `a + [sep] + b` are those of `a` followed by those of
      `b`: together with TokensOfPiece this fixes the tokens and their
      order, piece by piece. */
  lemma TokensAppend(a: string, b: string, sep: char, f: string -> string)
    ensures Tokens(a + [sep] + b, sep, f) == Tokens(a, sep, f) + Tokens(b, sep, f)
  {
    SplitAppend(a, b, sep);
    var pa, pb := Split(a, sep), Split(b, sep);
    MapEachAppend(pa, pb, f);
    FilterAppend(MapEach(pa, f), MapEach(pb, f), (s: string) => s != []);
  }

  /** Every token is `f` of some piece, contains no separator when `f`
      adds none, and is non-empty. */
  lemma TokenOrigin(text: string, sep: char, f: string -> string, t: string)
    requires t in Tokens(text, sep, f)
    ensures t != []
    ensures exists p :: p in Split(text, sep) && f(p) == t
  {
    var ps := Split(text, sep);
    FilterMembers(MapEach(ps, f), (s: string) => s != [], t);
    var k :| 0 <= k < |ps| && MapEach(ps, f)[k] == t;
    assert ps[k] in ps;
  }

  /** Every character of a piece of `s.split(sep)` is a character of `s`. */
  lemma {:induction false} SplitPieceChars(s: string, sep: char, k: nat, c: char)
    requires k < |Split(s, sep)| && c in Split(s, sep)[k]
    ensures c in s
    decreases |s|
  {
    if s != [] {
      var rest := Split(s[1..], sep);
      if s[0] == sep {
        if k > 0 {
          SplitPieceChars(s[1..], sep, k - 1, c);
        }
      } else if k == 0 {
        if c != s[0] {
          SplitPieceChars(s[1..], sep, 0, c);
        }
      } else {
        SplitPieceChars(s[1..], sep, k, c);
      }
    }
  }

  /** Every character of `s.trim()` is a character of `s`. */
  lemma TrimChars(s: string, c: char)
    requires c in Trim(s)
    ensures c in s
  {
    var t := TrimStart(s);
    var r := TrimEnd(t);
    TrimStartSplit(s);
    TrimEndSplit(t);
    var j :| 0 <= j < |r| && r[j] == c;
    assert t[j] == c;
    assert s[|s| - |t| + j] == c;
  }

  /** A string with something besides separators and whitespace. */
  predicate HasContent(s: string, sep: char) {
    exists i :: 0 <= i < |s| && s[i] != sep && !IsWhitespace(s[i])
  }

  /** When `f` empties exactly the all-whitespace pieces, the text has no
      tokens exactly when it is nothing but separators and whitespace. */
  lemma {:induction false} TokensEmptyIff(text: string, sep: char, f: string -> string)
    requires forall p :: f(p) == [] <==> AllWhitespace(p)
    ensures Tokens(text, sep, f) == [] <==> !HasContent(text, sep)
    decreases |text|
  {
    if sep !in text {
      TokensOfPiece(text, sep, f);
      if AllWhitespace(text) {
        assert !HasContent(text, sep);
      } else {
        var i :| 0 <= i < |text| && !IsWhitespace(text[i]);
        assert text[i] != sep;
      }
    } else {
      var i :| 0 <= i < |text| && text[i] == sep;
      var a, b := text[..i], text[i + 1..];
      assert text == a + [sep] + b;
      TokensAppend(a, b, sep, f);
      TokensEmptyIff(a, sep, f);
      TokensEmptyIff(b, sep, f);
      if HasContent(text, sep) {
        var j :| 0 <= j < |text| && text[j] != sep && !IsWhitespace(text[j]);
        if j < i {
          assert a[j] == text[j];
        } else {
          assert b[j - i - 1] == text[j];
        }
      }
      if HasContent(a, sep) {
        var j :| 0 <= j < |a| && a[j] != sep && !IsWhitespace(a[j]);
        assert text[j] == a[j];
      }
      if HasContent(b, sep) {
        var j :| 0 <= j < |b| && b[j] != sep && !IsWhitespace(b[j]);
        assert text[i + 1 + j] == b[j];
      }
    }
  }
}
