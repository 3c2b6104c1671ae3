/**
 * The string primitives of Python that the fetcher relies on: `str.lower`,
 * `str.strip`, `str.split`, `str.join`, `str.startswith` and the substring
 * test `needle in haystack`. Strings are sequences of characters.
 */
module Text {

  import opened Wrappers

  /** Python's `str.lower` on one character, restricted to ASCII letters. */
  function LowerChar(c: char): char
  {
    if 'A' <= c <= 'Z' then (c as int + 32) as char else c
  }

  predicate IsUpper(c: char)
  {
    'A' <= c <= 'Z'
  }

  /** `str.lower`: every ASCII capital becomes its small letter, nothing else changes. */
  function Lower(s: string): (r: string)
    ensures |r| == |s|
    ensures forall i :: 0 <= i < |s| ==> r[i] == LowerChar(s[i])
    ensures forall i :: 0 <= i < |s| ==> !IsUpper(r[i])
  {
    if s == [] then [] else [LowerChar(s[0])] + Lower(s[1..])
  }

  /** Lower-casing twice is lower-casing once. */
  lemma LowerIdempotent(s: string)
    ensures Lower(Lower(s)) == Lower(s)
  {
    assert forall i :: 0 <= i < |s| ==> LowerChar(Lower(s)[i]) == Lower(s)[i];
  }

  /** `needle` occurs in `hay` starting at index `i`. */
  predicate OccursAt(hay: string, needle: string, i: int)
  {
    0 <= i && i + |needle| <= |hay| && hay[i..i + |needle|] == needle
  }

  /** Python's `needle in hay` on strings (the empty string occurs in every string). */
  predicate IsSubstring(needle: string, hay: string)
  {
    exists i :: 0 <= i <= |hay| - |needle| && OccursAt(hay, needle, i)
  }

  /**
   * The characters `str.strip()` removes: the ASCII whitespace and separator
   * controls (9-13, 28-32) and the two Latin-1 spaces (U+0085, U+00A0).
   */
  predicate IsSpace(c: char)
  {
    var n := c as int;
    (9 <= n <= 13) || (28 <= n <= 32) || n == 0x85 || n == 0xA0
  }

  /** A string with no whitespace at either end. */
  predicate IsStripped(s: string)
  {
    s == [] || (!IsSpace(s[0]) && !IsSpace(s[|s| - 1]))
  }

  /** The first index at or after `i` that holds no whitespace, or `|s|`. */
  function SkipSpace(s: string, i: nat): (n: nat)
    requires i <= |s|
    ensures i <= n <= |s|
    ensures forall j :: i <= j < n ==> IsSpace(s[j])
    ensures n == |s| || !IsSpace(s[n])
    decreases |s| - i
  {
    if i < |s| && IsSpace(s[i]) then SkipSpace(s, i + 1) else i
  }

  /** The end of `s[..k]` once the whitespace at its end is cut away. */
  function BackSpace(s: string, k: nat): (n: nat)
    requires k <= |s|
    ensures n <= k
    ensures forall j :: n <= j < k ==> IsSpace(s[j])
    ensures n == 0 || !IsSpace(s[n - 1])
  {
    if k > 0 && IsSpace(s[k - 1]) then BackSpace(s, k - 1) else k
  }

  /** `str.lstrip()`: a suffix of `s`, and only whitespace was cut away. */
  function TrimStart(s: string): (r: string)
    ensures |r| <= |s| && r == s[|s| - |r|..]
    ensures forall j :: 0 <= j < |s| - |r| ==> IsSpace(s[j])
    ensures r == [] || !IsSpace(r[0])
  {
    s[SkipSpace(s, 0)..]
  }

  /** `str.rstrip()`: a prefix of `s`, and only whitespace was cut away. */
  function TrimEnd(s: string): (r: string)
    ensures |r| <= |s| && r == s[..|r|]
    ensures forall j :: |r| <= j < |s| ==> IsSpace(s[j])
    ensures r == [] || !IsSpace(r[|r| - 1])
  {
    s[..BackSpace(s, |s|)]
  }

  /** `str.strip()`: whitespace cut away at both ends. */
  function Strip(s: string): (r: string)
    ensures IsStripped(r)
  {
    var t := TrimStart(s);
    var r := TrimEnd(t);
    assert r != [] ==> r[0] == t[0];
    r
  }

  /** How many whitespace characters `Strip` cuts from the front. */
  function Lead(s: string): (n: nat)
    ensures n <= |s|
  {
    |s| - |TrimStart(s)|
  }

  /**
   * What `Strip` keeps is the run of `s` that starts after the leading
   * whitespace, and what it cuts away at either end is only whitespace.
   */
  lemma StripIsSlice(s: string)
    ensures Lead(s) + |Strip(s)| <= |s|
    ensures Strip(s) == s[Lead(s)..Lead(s) + |Strip(s)|]
    ensures forall j :: 0 <= j < Lead(s) ==> IsSpace(s[j])
    ensures forall j :: Lead(s) + |Strip(s)| <= j < |s| ==> IsSpace(s[j])
  {
    var t := TrimStart(s);
    var r := TrimEnd(t);
    var i := Lead(s);
    assert Strip(s) == r && t == s[i..] && r == t[..|r|];
    assert t[..|r|] == s[i..i + |r|];
    forall j | i + |r| <= j < |s| ensures IsSpace(s[j]) {
      assert s[j] == t[j - i];
    }
  }

  /** A string that is already stripped is left as it is. */
  lemma StripStripped(s: string)
    requires IsStripped(s)
    ensures Strip(s) == s
  {
    assert SkipSpace(s, 0) == 0 && s[0..] == s;
    assert BackSpace(s, |s|) == |s| && s[..|s|] == s;
  }

  /** Leading whitespace in front of a stripped string disappears. */
  lemma StripAfterSpace(c: char, s: string)
    requires IsSpace(c) && IsStripped(s)
    ensures Strip([c] + s) == s
  {
    var u := [c] + s;
    assert SkipSpace(u, 1) == 1;
    assert SkipSpace(u, 0) == 1 && u[1..] == s;
    assert BackSpace(s, |s|) == |s| && s[..|s|] == s;
  }

  /** Python's `s.startswith(p)` for a one-character prefix. */
  predicate StartsWith(s: string, c: char)
  {
    |s| > 0 && s[0] == c
  }

  /** Python's `sep.join(parts)`. */
  function Join(sep: string, parts: seq<string>): string
  {
    if parts == [] then []
    else if |parts| == 1 then parts[0]
    else parts[0] + sep + Join(sep, parts[1..])
  }

  /**
   * Python's `s.split(sep)` for a one-character separator: the pieces between
   * the separators, in order. Joining them again with `sep` gives back `s`,
   * and no piece contains `sep`.
   */
  function SplitOn(s: string, sep: char): (r: seq<string>)
    ensures |r| >= 1
    ensures Join([sep], r) == s
    ensures forall i :: 0 <= i < |r| ==> sep !in r[i]
  {
    if s == [] then [[]]
    else
      var rest := SplitOn(s[1..], sep);
      if s[0] == sep then
        assert s == [s[0]] + s[1..];
        [[]] + rest
      else
        var r := [[s[0]] + rest[0]] + rest[1..];
        assert r[1..] == rest[1..];
        assert s == [s[0]] + s[1..];
        r
  }

  /**
   * Python's `s.split(sep, 1)`: `None` when `sep` does not occur (a one-element
   * list), otherwise the text before the first `sep` and the text after it.
   */
  function SplitOnce(s: string, sep: char): (r: Option<(string, string)>)
    ensures r.None? <==> sep !in s
    ensures r.Some? ==> s == r.value.0 + [sep] + r.value.1 && sep !in r.value.0
  {
    if s == [] then None
    else if s[0] == sep then
      assert s == [] + [sep] + s[1..];
      Some(([], s[1..]))
    else
      assert s == [s[0]] + s[1..];
      match SplitOnce(s[1..], sep)
      case None => None
      case Some(p) =>
        var before := [s[0]] + p.0;
        assert s == before + [sep] + p.1 by {
          assert s[1..] == p.0 + [sep] + p.1;
        }
        Some((before, p.1))
  }

  /** Characters `Strip` keeps were in the input. */
  lemma StripSubset(s: string, c: char)
    requires c in Strip(s)
    ensures c in s
  {
    StripIsSlice(s);
    var k :| 0 <= k < |Strip(s)| && Strip(s)[k] == c;
    assert s[Lead(s)..Lead(s) + |Strip(s)|][k] == s[Lead(s) + k];
  }

  /** A character absent from the input is absent from what `Strip` keeps. */
  lemma StripNoChar(s: string, c: char)
    requires c !in s
    ensures c !in Strip(s)
  {
    if c in Strip(s) {
      StripSubset(s, c);
    }
  }

  /** A stripped string followed by trailing whitespace strips back to itself. */
  lemma StripBeforeSpace(s: string, c: char)
    requires IsSpace(c) && IsStripped(s) && s != []
    ensures Strip(s + [c]) == s
  {
    var u := s + [c];
    assert SkipSpace(u, 0) == 0 && u[0..] == u;
    assert BackSpace(u, |s|) == |s|;
    assert BackSpace(u, |u|) == |s| && u[..|s|] == s;
  }

  /** The piece of a split that ends at the first separator. */
  lemma {:induction false} SplitOnFirst(a: string, sep: char, b: string)
    requires sep !in a
    ensures SplitOn(a + [sep] + b, sep) == [a] + SplitOn(b, sep)
    decreases |a|
  {
    var s := a + [sep] + b;
    if a == [] {
      assert s[1..] == b;
    } else {
      assert s[1..] == a[1..] + [sep] + b;
      SplitOnFirst(a[1..], sep, b);
      assert [a[0]] + a[1..] == a;
    }
  }

  /** A string without the separator splits into itself. */
  lemma {:induction false} SplitOnNone(a: string, sep: char)
    requires sep !in a
    ensures SplitOn(a, sep) == [a]
    decreases |a|
  {
    if a != [] {
      SplitOnNone(a[1..], sep);
      assert [a[0]] + a[1..] == a;
    }
  }

  /** Splitting undoes joining, when no piece holds the separator. */
  lemma {:induction false} SplitJoin(parts: seq<string>, sep: char)
    requires |parts| >= 1
    requires forall i :: 0 <= i < |parts| ==> sep !in parts[i]
    ensures SplitOn(Join([sep], parts), sep) == parts
    decreases |parts|
  {
    if |parts| == 1 {
      SplitOnNone(parts[0], sep);
    } else {
      SplitJoin(parts[1..], sep);
      SplitOnFirst(parts[0], sep, Join([sep], parts[1..]));
    }
  }

  /** `split(sep, 1)` cuts at the first separator. */
  lemma {:induction false} SplitOnceFirst(a: string, sep: char, b: string)
    requires sep !in a
    ensures SplitOnce(a + [sep] + b, sep) == Some((a, b))
    decreases |a|
  {
    var s := a + [sep] + b;
    if a == [] {
      assert s[1..] == b;
    } else {
      assert s[1..] == a[1..] + [sep] + b;
      SplitOnceFirst(a[1..], sep, b);
      assert [a[0]] + a[1..] == a;
    }
  }


  /** Joining adds no character that neither the separator nor a piece holds. */
  lemma {:induction false} JoinNoChar(sep: string, parts: seq<string>, c: char)
    requires c !in sep
    requires forall i :: 0 <= i < |parts| ==> c !in parts[i]
    ensures c !in Join(sep, parts)
    decreases |parts|
  {
    if |parts| > 1 {
      JoinNoChar(sep, parts[1..], c);
    }
  }

  /** A character of any piece is a character of the join. */
  lemma {:induction false} JoinHasPiece(sep: string, parts: seq<string>, i: nat, c: char)
    requires i < |parts| && c in parts[i]
    ensures c in Join(sep, parts)
    decreases i
  {
    if |parts| > 1 {
      var rest := Join(sep, parts[1..]);
      assert Join(sep, parts) == parts[0] + sep + rest;
      if i > 0 {
        assert parts[1..][i - 1] == parts[i];
        JoinHasPiece(sep, parts[1..], i - 1, c);
      }
    }
  }

  /** A join ends where its last piece ends. */
  lemma {:induction false} JoinLastChar(sep: string, parts: seq<string>)
    requires parts != [] && parts[|parts| - 1] != []
    ensures var j := Join(sep, parts); var last := parts[|parts| - 1];
            j != [] && j[|j| - 1] == last[|last| - 1]
    decreases |parts|
  {
    if |parts| > 1 {
      JoinLastChar(sep, parts[1..]);
    }
  }
}
