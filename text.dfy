/**
 * The string operations of Python's `str` that the fetch script uses:
 * `strip()`, `upper()`, `split(",")` and `replace(".", "")`.
 */
module Text {
  import opened Wrappers

  /** Python's `str.isspace()` for one character: the ASCII whitespace controls,
      the information separators U+001C to U+001F, and the Unicode space, line and
      paragraph separators. */
  predicate IsSpace(c: char) {
    ('\t' <= c <= '\r') || ('\U{1c}' <= c <= '\U{1f}') || c == ' ' || c == '\U{85}' || c == '\U{a0}'
    || c == '\U{1680}' || ('\U{2000}' <= c <= '\U{200a}') || c == '\U{2028}' || c == '\U{2029}'
    || c == '\U{202f}' || c == '\U{205f}' || c == '\U{3000}'
  }

  predicate AllSpace(s: string) {
    forall k :: 0 <= k < |s| ==> IsSpace(s[k])
  }

  /** Removes leading whitespace: the result is the suffix of `s` that starts at its first
      non-space character (empty if there is none). */
  function StripLeft(s: string): (r: string)
    ensures |r| <= |s| && r == s[|s| - |r|..]
    ensures AllSpace(s[..|s| - |r|])
    ensures r == [] || !IsSpace(r[0])
  {
    if s != [] && IsSpace(s[0]) then
      var r := StripLeft(s[1..]);
      SpaceBefore(s, r);
      r
    else s
  }

  /** Stripping a string whose first character is a space strips its tail. */
  lemma SpaceBefore(s: string, r: string)
    requires s != [] && IsSpace(s[0])
    requires |r| <= |s| - 1 && r == s[1..][|s| - 1 - |r|..] && AllSpace(s[1..][..|s| - 1 - |r|])
    ensures r == s[|s| - |r|..] && AllSpace(s[..|s| - |r|])
  {
    var n := |s| - |r|;
    forall k | 1 <= k < n ensures IsSpace(s[k]) {
      assert s[k] == s[1..][..n - 1][k - 1];
    }
  }

  /** Removes trailing whitespace: the result is the prefix of `s` that ends at its last
      non-space character (empty if there is none). */
  function StripRight(s: string): (r: string)
    ensures |r| <= |s| && r == s[..|r|]
    ensures AllSpace(s[|r|..])
    ensures r == [] || !IsSpace(r[|r| - 1])
  {
    if s != [] && IsSpace(s[|s| - 1]) then
      var r := StripRight(s[..|s| - 1]);
      SpaceAfter(s, r);
      r
    else s
  }

  /** Stripping a string whose last character is a space strips its head. */
  lemma SpaceAfter(s: string, r: string)
    requires s != [] && IsSpace(s[|s| - 1])
    requires |r| <= |s| - 1 && r == s[..|s| - 1][..|r|] && AllSpace(s[..|s| - 1][|r|..])
    ensures r == s[..|r|] && AllSpace(s[|r|..])
  {
    forall k | |r| <= k < |s| - 1 ensures IsSpace(s[k]) {
      assert s[k] == s[..|s| - 1][|r|..][k - |r|];
    }
  }

  /** Python's `s.strip()`: whitespace on neither end, and empty exactly when `s` is
      all whitespace. */
  function Strip(s: string): (r: string)
    ensures r == [] || (!IsSpace(r[0]) && !IsSpace(r[|r| - 1]))
    ensures r == [] <==> AllSpace(s)
  {
    var l := StripLeft(s);
    var r := StripRight(l);
    assert l != [] ==> s[|s| - |l|] == l[0];
    assert l == [] ==> s[..|s|] == s;
    assert r == [] ==> l[|r|..] == l;
    r
  }

  /** The k-th character of the stripped text is a character of `s`, at offset `|s| - |l|`. */
  lemma StripAt(s: string, k: nat)
    requires k < |StripRight(StripLeft(s))|
    ensures StripRight(StripLeft(s))[k] == s[|s| - |StripLeft(s)| + k]
  {
    var l := StripLeft(s);
    var r := StripRight(l);
    var off := |s| - |l|;
    assert r[k] == l[..|r|][k] == l[k];
    assert l[k] == s[off..][k];
  }

  /** Stripping adds no character: what the stripped text holds, `s` holds. */
  lemma StripKeeps(s: string, c: char)
    requires c in Strip(s)
    ensures c in s
  {
    var r := StripRight(StripLeft(s));
    var k :| 0 <= k < |r| && r[k] == c;
    StripAt(s, k);
  }

  lemma StripLeftPadded(front: string, t: string)
    requires AllSpace(front)
    requires t != [] && !IsSpace(t[0])
    ensures StripLeft(front + t) == t
  {
    var s := front + t;
    var n := |s| - |StripLeft(s)|;
    assert s[|front|] == t[0];
    assert forall k :: 0 <= k < |front| ==> s[k] == front[k];
    assert n <= |front|;
    assert s[n..] == t;
  }

  lemma StripRightPadded(t: string, back: string)
    requires AllSpace(back)
    requires t != [] && !IsSpace(t[|t| - 1])
    ensures StripRight(t + back) == t
  {
    var l := t + back;
    assert l[|t| - 1] == t[|t| - 1];
    assert forall k :: |t| <= k < |l| ==> l[k] == back[k - |t|];
    assert |StripRight(l)| >= |t|;
    assert l[..|t|] == t;
  }

  /** Stripping whitespace from a text padded with whitespace gives the text back. */
  lemma {:induction false} StripPadded(front: string, t: string, back: string)
    requires AllSpace(front) && AllSpace(back)
    requires t == [] || (!IsSpace(t[0]) && !IsSpace(t[|t| - 1]))
    ensures Strip(front + t + back) == t
  {
    var s := front + t + back;
    if t == [] {
      assert AllSpace(s) by {
        forall k | 0 <= k < |s| ensures IsSpace(s[k]) {
          if k < |front| { assert s[k] == front[k]; } else { assert s[k] == back[k - |front|]; }
        }
      }
    } else {
      assert s == front + (t + back);
      StripLeftPadded(front, t + back);
      StripRightPadded(t, back);
    }
  }

  /** A text with no whitespace at either end is its own strip. */
  lemma StripUnpadded(t: string)
    requires t == [] || (!IsSpace(t[0]) && !IsSpace(t[|t| - 1]))
    ensures Strip(t) == t
  {
    StripPadded([], t, []);
    assert [] + t + [] == t;
  }

  /** Stripping is idempotent. */
  lemma StripIdempotent(s: string)
    ensures Strip(Strip(s)) == Strip(s)
  {
    StripUnpadded(Strip(s));
  }

  predicate IsLowerAscii(c: char) {
    'a' <= c <= 'z'
  }

  /** Python's `upper()` on one character, for the ASCII letters. */
  function UpperChar(c: char): (u: char)
    ensures IsLowerAscii(c) ==> 'A' <= u <= 'Z' && u as int == c as int - 32
    ensures !IsLowerAscii(c) ==> u == c
  {
    if IsLowerAscii(c) then (c as int - 'a' as int + 'A' as int) as char else c
  }

  /** Python's `s.upper()` restricted to ASCII: same length, every lower-case ASCII letter
      replaced by its capital, every other character (whitespace included) kept. */
  function AsciiUpper(s: string): (r: string)
    ensures |r| == |s|
    ensures forall k :: 0 <= k < |r| ==> !IsLowerAscii(r[k])
    ensures forall k :: 0 <= k < |r| ==> (r[k] == s[k] <==> !IsLowerAscii(s[k]))
    ensures forall k :: 0 <= k < |r| ==> IsSpace(r[k]) == IsSpace(s[k])
    ensures forall k :: 0 <= k < |r| ==> r[k] == UpperChar(s[k])
  {
    seq(|s|, k requires 0 <= k < |s| => UpperChar(s[k]))
  }

  /** Upper-casing a text without lower-case ASCII letters changes nothing. */
  lemma AsciiUpperFixed(t: string)
    requires forall k :: 0 <= k < |t| ==> !IsLowerAscii(t[k])
    ensures AsciiUpper(t) == t
  {
  }

  /** Python's `s.replace(c, "")`: `s` with every occurrence of `c` removed and the
      other characters kept in order. */
  function Remove(s: string, c: char): (r: string)
    ensures c !in r
    ensures |r| <= |s|
    ensures c !in s ==> r == s
  {
    if s == [] then []
    else if s[0] == c then Remove(s[1..], c)
    else
      assert s == [s[0]] + s[1..];
      [s[0]] + Remove(s[1..], c)
  }

  /** Removing a character from a concatenation removes it from both parts. */
  lemma {:induction false} RemoveConcat(a: string, b: string, c: char)
    ensures Remove(a + b, c) == Remove(a, c) + Remove(b, c)
  {
    if a == [] {
      assert a + b == b;
    } else {
      var s := a + b;
      assert s[0] == a[0] && s[1..] == a[1..] + b;
      RemoveConcat(a[1..], b, c);
      if a[0] != c {
        calc {
          Remove(s, c);
          [a[0]] + Remove(a[1..] + b, c);
          [a[0]] + (Remove(a[1..], c) + Remove(b, c));
          ([a[0]] + Remove(a[1..], c)) + Remove(b, c);
          Remove(a, c) + Remove(b, c);
        }
      }
    }
  }

  /** Index of the first occurrence of `c` in `s`, if any. */
  function FirstIndex(s: string, c: char): (r: Option<nat>)
    ensures r.None? <==> c !in s
    ensures r.Some? ==> r.value < |s| && s[r.value] == c && c !in s[..r.value]
  {
    if s == [] then None
    else if s[0] == c then Some(0)
    else match FirstIndex(s[1..], c)
      case None => None
      case Some(k) =>
        assert s[..k + 1] == [s[0]] + s[1..][..k];
        Some(k + 1)
  }

  /** The first occurrence of `c` in `a + [c] + b`, when `a` holds none, is at `|a|`. */
  lemma FirstIndexAfter(a: string, c: char, b: string)
    requires c !in a
    ensures FirstIndex(a + [c] + b, c) == Some(|a|)
  {
    var s := a + [c] + b;
    assert s[|a|] == c;
    var k := FirstIndex(s, c).value;
    assert forall j :: 0 <= j < |a| ==> s[j] == a[j];
    assert k <= |a|;
  }

  /** Python's `s.split(sep)`: the pieces between separators, at least one, none holding `sep`. */
  function Split(s: string, sep: char): (r: seq<string>)
    ensures |r| >= 1
    ensures forall p :: p in r ==> sep !in p
    decreases |s|
  {
    match FirstIndex(s, sep)
    case None => [s]
    case Some(k) => [s[..k]] + Split(s[k + 1..], sep)
  }

  /** Python's `sep.join(pieces)`, for a non-empty list of pieces. */
  function Join(pieces: seq<string>, sep: char): string
    requires |pieces| >= 1
  {
    if |pieces| == 1 then pieces[0] else pieces[0] + [sep] + Join(pieces[1..], sep)
  }

  /** Joining the pieces of a split with the separator gives back the original string. */
  lemma {:induction false} JoinSplit(s: string, sep: char)
    ensures Join(Split(s, sep), sep) == s
    decreases |s|
  {
    match FirstIndex(s, sep)
    case None =>
    case Some(k) =>
      JoinSplit(s[k + 1..], sep);
      assert Split(s, sep)[1..] == Split(s[k + 1..], sep);
      assert s == s[..k] + [sep] + s[k + 1..];
  }

  /** Splitting a join of separator-free pieces gives back the pieces. */
  lemma {:induction false} SplitJoin(pieces: seq<string>, sep: char)
    requires |pieces| >= 1
    requires forall p :: p in pieces ==> sep !in p
    ensures Split(Join(pieces, sep), sep) == pieces
  {
    if |pieces| > 1 {
      var rest := Join(pieces[1..], sep);
      FirstIndexAfter(pieces[0], sep, rest);
      var s := pieces[0] + [sep] + rest;
      assert s[..|pieces[0]|] == pieces[0];
      assert s[|pieces[0]| + 1..] == rest;
      SplitJoin(pieces[1..], sep);
      assert pieces == [pieces[0]] + pieces[1..];
    }
  }

  /** The split of `a + sep + b` is the split of `a` followed by the split of `b`. */
  lemma {:induction false} SplitConcat(a: string, sep: char, b: string)
    ensures Split(a + [sep] + b, sep) == Split(a, sep) + Split(b, sep)
    decreases |a|
  {
    var s := a + [sep] + b;
    match FirstIndex(a, sep)
    case None =>
      FirstIndexAfter(a, sep, b);
      assert s[..|a|] == a;
      assert s[|a| + 1..] == b;
      assert Split(s, sep) == [a] + Split(b, sep);
    case Some(k) =>
      FirstIndexBefore(a, sep, b);
      assert s[..k] == a[..k];
      assert s[k + 1..] == a[k + 1..] + [sep] + b;
      SplitConcat(a[k + 1..], sep, b);
      var x, y, z := [a[..k]], Split(a[k + 1..], sep), Split(b, sep);
      assert Split(s, sep) == x + (y + z);
      AppendAssoc(x, y, z);
  }

  /** Text appended after an occurrence of `c` does not move the first occurrence. */
  lemma FirstIndexBefore(a: string, c: char, b: string)
    requires c in a
    ensures FirstIndex(a + [c] + b, c) == FirstIndex(a, c)
  {
    var s, k := a + [c] + b, FirstIndex(a, c).value;
    var j := FirstIndex(s, c).value;
    assert s[k] == a[k];
    assert s[..k] == a[..k];
    assert j >= k;
  }
}
