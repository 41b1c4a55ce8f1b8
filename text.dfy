/**
 * The handful of Python string operations the tool relies on, over `seq<char>`:
 * `str.lower()`, `in`, `str.split()`, `str.split(sep)`, `str.strip()`,
 * `sep.join(parts)` and decimal formatting of a natural number in an f-string.
 * Whitespace is the set of `bytes.strip()` (tvldap.py:118, tvldap2.py:39); Python's
 * `str.split()` and `str.strip()` also count U+001C to U+001F and non-ASCII whitespace.
 */
module Text {

  /** The whitespace of `bytes.strip()`: space, tab, line feed, carriage return,
      vertical tab, form feed. */
  predicate IsSpace(c: char) {
    c == ' ' || c == '\t' || c == '\n' || c == '\r' || c == '\U{B}' || c == '\U{C}'
  }

  /** ASCII lower-casing of one character. */
  function LowerChar(c: char): char {
    if 'A' <= c <= 'Z' then (c as int + 32) as char else c
  }

  /** `s.lower()` on ASCII letters. */
  function Lower(s: string): string {
    seq(|s|, i requires 0 <= i < |s| => LowerChar(s[i]))
  }

  predicate StartsWith(s: string, prefix: string) {
    |prefix| <= |s| && s[..|prefix|] == prefix
  }

  /** `pattern in s` for strings. */
  predicate Contains(s: string, pattern: string)
    decreases |s|
  {
    StartsWith(s, pattern) || (s != [] && Contains(s[1..], pattern))
  }

  lemma {:induction false} ContainsFirstChar(s: string, pattern: string)
    requires pattern != [] && Contains(s, pattern)
    ensures exists i :: 0 <= i < |s| && s[i] == pattern[0]
  {
    if StartsWith(s, pattern) {
      assert s[0] == pattern[0];
    } else {
      ContainsFirstChar(s[1..], pattern);
      var i :| 0 <= i < |s[1..]| && s[1..][i] == pattern[0];
      assert s[i + 1] == pattern[0];
    }
  }

  /** A non-empty run of non-whitespace characters: what `str.split()` yields. */
  predicate IsWord(w: string) {
    w != [] && forall i :: 0 <= i < |w| ==> !IsSpace(w[i])
  }

  /** Length of the longest non-whitespace prefix of `s`. */
  function WordLength(s: string): (n: nat)
    ensures n <= |s|
    ensures forall i :: 0 <= i < n ==> !IsSpace(s[i])
    ensures n < |s| ==> IsSpace(s[n])
  {
    if s == [] || IsSpace(s[0]) then 0 else 1 + WordLength(s[1..])
  }

  /** `s.split()`: the maximal whitespace-free runs of `s`, in order. */
  function Tokens(s: string): (tokens: seq<string>)
    decreases |s|
    ensures forall k :: 0 <= k < |tokens| ==> IsWord(tokens[k])
  {
    if s == [] then []
    else if IsSpace(s[0]) then Tokens(s[1..])
    else
      var n := WordLength(s);
      [s[..n]] + Tokens(s[n..])
  }

  /** `s.split()` is non-empty as soon as `s` holds one non-whitespace character. */
  lemma {:induction false} TokensNonEmpty(s: string, i: nat)
    requires i < |s| && !IsSpace(s[i])
    ensures Tokens(s) != []
  {
    if IsSpace(s[0]) {
      TokensNonEmpty(s[1..], i - 1);
    }
  }

  /** Empty or made of whitespace only. */
  predicate IsBlank(s: string) {
    forall i :: 0 <= i < |s| ==> IsSpace(s[i])
  }

  /** The strings one after another (`"".join(parts)`). */
  function Flatten(parts: seq<string>): string
    decreases |parts|
  {
    if parts == [] then "" else parts[0] + Flatten(parts[1..])
  }

  /** The characters of `s` that are not whitespace, in order. */
  function NonSpace(s: string): string
    decreases |s|
  {
    if s == [] then [] else (if IsSpace(s[0]) then [] else [s[0]]) + NonSpace(s[1..])
  }

  lemma {:induction false} NonSpaceAppend(a: string, b: string)
    ensures NonSpace(a + b) == NonSpace(a) + NonSpace(b)
  {
    if a == [] {
      assert a + b == b;
    } else {
      assert (a + b)[1..] == a[1..] + b;
      NonSpaceAppend(a[1..], b);
    }
  }

  lemma {:induction false} NonSpaceOfBlank(s: string)
    requires IsBlank(s)
    ensures NonSpace(s) == []
  {
    if s != [] {
      NonSpaceOfBlank(s[1..]);
    }
  }

  lemma {:induction false} NonSpaceOfWord(w: string)
    requires forall i :: 0 <= i < |w| ==> !IsSpace(w[i])
    ensures NonSpace(w) == w
  {
    if w != [] {
      NonSpaceOfWord(w[1..]);
      assert [w[0]] + w[1..] == w;
    }
  }

  /** `s.split()` is empty exactly when `s` is blank. */
  lemma {:induction false} TokensEmptyIff(s: string)
    ensures Tokens(s) == [] <==> IsBlank(s)
  {
    if s != [] {
      if IsSpace(s[0]) {
        TokensEmptyIff(s[1..]);
        if IsBlank(s[1..]) {
          forall i | 1 <= i < |s| ensures IsSpace(s[i]) {
            assert s[i] == s[1..][i - 1];
          }
        }
      }
    }
  }

  /** The tokens of `s.split()`, put back together, are the non-whitespace
      characters of `s`: nothing is lost, added or reordered. */
  lemma {:induction false} TokensCover(s: string)
    ensures Flatten(Tokens(s)) == NonSpace(s)
  {
    if s != [] {
      if IsSpace(s[0]) {
        TokensCover(s[1..]);
      } else {
        var n := WordLength(s);
        TokensCover(s[n..]);
        assert Tokens(s)[1..] == Tokens(s[n..]);
        NonSpaceOfWord(s[..n]);
        NonSpaceAppend(s[..n], s[n..]);
        assert s[..n] + s[n..] == s;
      }
    }
  }

  /** `w` is the run `s[i..j]` of non-whitespace that starts at the beginning of
      `s` or after whitespace, with only whitespace after it. */
  predicate IsLastWordAt(s: string, w: string, i: nat, j: nat) {
    i < j <= |s| && w == s[i..j] && IsWord(w) && (i == 0 || IsSpace(s[i - 1])) && IsBlank(s[j..])
  }

  lemma LastWordAfterSpace(s: string, w: string, i: nat, j: nat)
    requires s != [] && IsSpace(s[0]) && IsLastWordAt(s[1..], w, i, j)
    ensures IsLastWordAt(s, w, i + 1, j + 1)
  {
    assert s[1..][i..j] == s[i + 1..j + 1];
    assert s[1..][j..] == s[j + 1..];
  }

  lemma LastWordAfterWord(s: string, n: nat, w: string, i: nat, j: nat)
    requires 0 < n < |s| && IsSpace(s[n]) && IsLastWordAt(s[n..], w, i, j)
    ensures IsLastWordAt(s, w, n + i, n + j)
  {
    assert s[n..][i..j][0] == s[n + i];
    assert s[n..][i..j] == s[n + i..n + j];
    assert s[n..][j..] == s[n + j..];
    if i > 0 {
      assert s[n + i - 1] == s[n..][i - 1];
    }
  }

  /** The last token of `s.split()` is the last maximal run of non-whitespace in `s`. */
  lemma {:induction false} LastToken(s: string)
    requires Tokens(s) != []
    ensures exists i: nat, j: nat {:trigger IsLastWordAt(s, Tokens(s)[|Tokens(s)| - 1], i, j)} ::
      IsLastWordAt(s, Tokens(s)[|Tokens(s)| - 1], i, j)
  {
    var t := Tokens(s);
    if IsSpace(s[0]) {
      var s' := s[1..];
      LastToken(s');
      var i: nat, j: nat :| IsLastWordAt(s', Tokens(s')[|Tokens(s')| - 1], i, j);
      LastWordAfterSpace(s, t[|t| - 1], i, j);
    } else {
      var n := WordLength(s);
      var s' := s[n..];
      assert t == [s[..n]] + Tokens(s');
      if Tokens(s') == [] {
        TokensEmptyIff(s');
        assert IsLastWordAt(s, t[|t| - 1], 0, n);
      } else {
        LastToken(s');
        var i: nat, j: nat :| IsLastWordAt(s', Tokens(s')[|Tokens(s')| - 1], i, j);
        LastWordAfterWord(s, n, t[|t| - 1], i, j);
      }
    }
  }

  /** `s.strip()`: whitespace removed from both ends. The result neither starts nor
      ends with whitespace, and it is empty exactly when `s` is blank. */
  function Strip(s: string): (r: string)
    decreases |s|
    ensures |r| <= |s|
    ensures r != [] ==> !IsSpace(r[0]) && !IsSpace(r[|r| - 1])
    ensures r == [] <==> IsBlank(s)
  {
    if s == [] then s
    else if IsSpace(s[0]) then Strip(s[1..])
    else if IsSpace(s[|s| - 1]) then Strip(s[..|s| - 1])
    else s
  }

  /** `r` is `s[i..j]` with only whitespace before `i` and after `j`. */
  predicate IsTrimmedSlice(s: string, r: string, i: nat, j: nat) {
    i <= j <= |s| && r == s[i..j] && IsBlank(s[..i]) && IsBlank(s[j..])
  }

  lemma TrimmedSliceAfterSpace(s: string, r: string, i: nat, j: nat)
    requires s != [] && IsSpace(s[0]) && IsTrimmedSlice(s[1..], r, i, j)
    ensures IsTrimmedSlice(s, r, i + 1, j + 1)
  {
    assert s[1..][i..j] == s[i + 1..j + 1];
    assert s[1..][j..] == s[j + 1..];
    forall k | 0 < k < i + 1 ensures IsSpace(s[k]) {
      assert s[k] == s[1..][..i][k - 1];
    }
  }

  lemma TrimmedSliceBeforeSpace(s: string, r: string, i: nat, j: nat)
    requires s != [] && IsSpace(s[|s| - 1]) && IsTrimmedSlice(s[..|s| - 1], r, i, j)
    ensures IsTrimmedSlice(s, r, i, j)
  {
    assert s[..|s| - 1][i..j] == s[i..j];
    assert s[..|s| - 1][..i] == s[..i];
    forall k | j <= k < |s| - 1 ensures IsSpace(s[k]) {
      assert s[k] == s[..|s| - 1][j..][k - j];
    }
  }

  /** `s.strip()` is the slice of `s` left once the whitespace at both ends is
      cut off: only whitespace lies before and after it. */
  lemma {:induction false} StripIsInfix(s: string)
    ensures exists i: nat, j: nat :: IsTrimmedSlice(s, Strip(s), i, j)
  {
    if s == [] {
      assert IsTrimmedSlice(s, Strip(s), 0, 0);
    } else if IsSpace(s[0]) {
      StripIsInfix(s[1..]);
      var i: nat, j: nat :| IsTrimmedSlice(s[1..], Strip(s[1..]), i, j);
      TrimmedSliceAfterSpace(s, Strip(s), i, j);
    } else if IsSpace(s[|s| - 1]) {
      StripIsInfix(s[..|s| - 1]);
      var i: nat, j: nat :| IsTrimmedSlice(s[..|s| - 1], Strip(s[..|s| - 1]), i, j);
      TrimmedSliceBeforeSpace(s, Strip(s), i, j);
    } else {
      assert s[0..|s|] == s;
      assert IsTrimmedSlice(s, Strip(s), 0, |s|);
    }
  }

  /** Stripping twice is stripping once. */
  lemma StripIdempotent(s: string)
    ensures Strip(Strip(s)) == Strip(s)
  {
  }

  /** `s.split(d)` for a one-character separator: never empty, and no part holds `d`. */
  function Split(s: string, d: char): (parts: seq<string>)
    decreases |s|
    ensures |parts| >= 1
    ensures forall k :: 0 <= k < |parts| ==> d !in parts[k]
  {
    if s == [] then [[]]
    else
      var rest := Split(s[1..], d);
      if s[0] == d then [[]] + rest else [[s[0]] + rest[0]] + rest[1..]
  }

  /** `sep.join(parts)`. */
  function Join(sep: string, parts: seq<string>): string
    decreases |parts|
  {
    if parts == [] then []
    else if |parts| == 1 then parts[0]
    else parts[0] + sep + Join(sep, parts[1..])
  }

  /** Splitting at a separator that is absent gives the whole string back. */
  lemma {:induction false} SplitAbsent(s: string, d: char)
    requires d !in s
    ensures Split(s, d) == [s]
  {
    if s != [] {
      SplitAbsent(s[1..], d);
      assert [s[0]] + s[1..] == s;
    }
  }

  /** Splitting `a + d + b`, where `a` holds no `d`, yields `a` followed by the parts of `b`. */
  lemma {:induction false} SplitAfterFirst(a: string, d: char, b: string)
    requires d !in a
    ensures Split(a + [d] + b, d) == [a] + Split(b, d)
  {
    var s := a + [d] + b;
    if a == [] {
      assert s[1..] == b;
    } else {
      assert s[1..] == a[1..] + [d] + b;
      SplitAfterFirst(a[1..], d, b);
      assert [a[0]] + a[1..] == a;
    }
  }

  /** `d.join(s.split(d)) == s`. */
  lemma {:induction false} JoinSplit(s: string, d: char)
    ensures Join([d], Split(s, d)) == s
  {
    if s != [] {
      var rest := Split(s[1..], d);
      JoinSplit(s[1..], d);
      if s[0] == d {
        assert Split(s, d) == [[]] + rest;
        assert Join([d], [[]] + rest) == [] + [d] + Join([d], rest);
      } else {
        var parts := Split(s, d);
        assert parts == [[s[0]] + rest[0]] + rest[1..];
        if |rest| == 1 {
          assert Join([d], rest) == rest[0];
        } else {
          assert Join([d], rest) == rest[0] + [d] + Join([d], rest[1..]);
          assert parts[1..] == rest[1..];
        }
      }
    }
  }

  /** `d.join(parts).split(d) == parts` when no part holds `d`. */
  lemma {:induction false} SplitJoin(parts: seq<string>, d: char)
    requires parts != []
    requires forall k :: 0 <= k < |parts| ==> d !in parts[k]
    ensures Split(Join([d], parts), d) == parts
  {
    if |parts| == 1 {
      SplitAbsent(parts[0], d);
    } else {
      SplitJoin(parts[1..], d);
      SplitAfterFirst(parts[0], d, Join([d], parts[1..]));
      assert [parts[0]] + parts[1..] == parts;
    }
  }

  /** `s.split(d)` has one part more than `s` has occurrences of `d`. */
  lemma {:induction false} SplitCount(s: string, d: char)
    ensures |Split(s, d)| == multiset(s)[d] + 1
  {
    if s != [] {
      SplitCount(s[1..], d);
      assert s == [s[0]] + s[1..];
      assert multiset(s) == multiset{s[0]} + multiset(s[1..]);
    }
  }

  predicate IsDigit(c: char) {
    '0' <= c <= '9'
  }

  predicate AllDigits(s: string) {
    forall i :: 0 <= i < |s| ==> IsDigit(s[i])
  }

  function DigitChar(d: nat): char
    requires d < 10
  {
    ('0' as int + d) as char
  }

  /** Decimal rendering of `n`, as `f"{n}"` prints it: digits only, no leading zero. */
  function Decimal(n: nat): (s: string)
    decreases n
    ensures s != [] && AllDigits(s)
    ensures |s| > 1 ==> s[0] != '0'
  {
    if n < 10 then [DigitChar(n)] else Decimal(n / 10) + [DigitChar(n % 10)]
  }

  /** Value of a string of decimal digits. */
  function DecimalValue(s: string): nat
    requires AllDigits(s)
    decreases |s|
  {
    if s == [] then 0 else DecimalValue(s[..|s| - 1]) * 10 + (s[|s| - 1] as int - '0' as int)
  }

  /** Reading back what `Decimal` wrote gives the number. */
  lemma {:induction false} DecimalRoundTrip(n: nat)
    ensures DecimalValue(Decimal(n)) == n
  {
    if n >= 10 {
      DecimalRoundTrip(n / 10);
      var s := Decimal(n);
      assert s[..|s| - 1] == Decimal(n / 10);
    }
  }
}
