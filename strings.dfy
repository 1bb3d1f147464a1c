/**
 * The parts of `System.String` the configuration parser relies on:
 * `Split(char)` and `Trim()`, with the small helpers needed to state them.
 */
module Strings {

  /**
   * The characters `Trim()` removes in this model: TAB, LF, VT, FF, CR and
   * SPACE (U+0009 to U+000D and U+0020).
   */
  predicate IsWhiteSpace(c: char)
  {
    c == ' ' || c == '\t' || c == '\n' || c == '\U{000B}' || c == '\U{000C}' || c == '\r'
  }

  predicate AllWhiteSpace(s: string)
  {
    forall i :: 0 <= i < |s| ==> IsWhiteSpace(s[i])
  }

  /** Neither end of `s` is white space. */
  predicate IsTrimmed(s: string)
  {
    s == [] || (!IsWhiteSpace(s[0]) && !IsWhiteSpace(s[|s| - 1]))
  }

  /** The number of occurrences of `c` in `s`. */
  function Count(s: string, c: char): nat
  {
    if s == [] then 0 else (if s[0] == c then 1 else 0) + Count(s[1..], c)
  }

  lemma {:induction false} CountAppend(a: string, b: string, c: char)
    ensures Count(a + b, c) == Count(a, c) + Count(b, c)
  {
    if a != [] {
      assert (a + b)[0] == a[0] && (a + b)[1..] == a[1..] + b;
      CountAppend(a[1..], b, c);
    } else {
      assert a + b == b;
    }
  }

  lemma {:induction false} CountZero(s: string, c: char)
    ensures Count(s, c) == 0 <==> c !in s
  {
    if s != [] {
      CountZero(s[1..], c);
      assert s == [s[0]] + s[1..];
    }
  }

  /** The position of the first `c` in `s`. */
  function IndexOf(s: string, c: char): (i: nat)
    requires c in s
    ensures i < |s| && s[i] == c && c !in s[..i]
  {
    if s[0] == c then 0 else 1 + IndexOf(s[1..], c)
  }

  /**
   * `s.Split(sep)`: the maximal pieces of `s` between occurrences of `sep`,
   * empty pieces included, so that there is always one more piece than
   * there are separators.
   */
  function Split(s: string, sep: char): (parts: seq<string>)
    ensures |parts| == Count(s, sep) + 1
    ensures forall i :: 0 <= i < |parts| ==> sep !in parts[i]
  {
    if s == [] then [""]
    else
      var rest := Split(s[1..], sep);
      if s[0] == sep then [""] + rest
      else [[s[0]] + rest[0]] + rest[1..]
  }

  /** `String.Join(sep, parts)`, the inverse of `Split`. */
  function Join(parts: seq<string>, sep: char): string
    requires |parts| > 0
  {
    if |parts| == 1 then parts[0] else parts[0] + [sep] + Join(parts[1..], sep)
  }

  /** Joining the pieces of a split gives back the string. */
  lemma {:induction false} JoinSplit(s: string, sep: char)
    ensures Join(Split(s, sep), sep) == s
  {
    if s != [] {
      JoinSplit(s[1..], sep);
      var rest := Split(s[1..], sep);
      if s[0] == sep {
        assert ([""] + rest)[1..] == rest;
      } else {
        var parts := [[s[0]] + rest[0]] + rest[1..];
        if |rest| > 1 {
          assert parts[1..] == rest[1..];
        }
      }
    }
  }

  /** Splitting a string that starts with a separator-free piece `a`. */
  lemma {:induction false} SplitPrefix(a: string, b: string, sep: char)
    requires sep !in a
    ensures Split(a + b, sep) == [a + Split(b, sep)[0]] + Split(b, sep)[1..]
  {
    if a == [] {
      assert a + b == b;
      assert a + Split(b, sep)[0] == Split(b, sep)[0];
      assert Split(b, sep) == [Split(b, sep)[0]] + Split(b, sep)[1..];
    } else {
      assert (a + b)[1..] == a[1..] + b;
      assert (a + b)[0] == a[0] != sep;
      SplitPrefix(a[1..], b, sep);
      var rest := Split(a[1..] + b, sep);
      assert Split(a + b, sep) == [[a[0]] + rest[0]] + rest[1..];
      assert [a[0]] + (a[1..] + Split(b, sep)[0]) == a + Split(b, sep)[0];
    }
  }

  /** Splitting a join of separator-free pieces gives back the pieces. */
  lemma {:induction false} SplitJoin(parts: seq<string>, sep: char)
    requires |parts| > 0
    requires forall i :: 0 <= i < |parts| ==> sep !in parts[i]
    ensures Split(Join(parts, sep), sep) == parts
  {
    if |parts| == 1 {
      SplitPrefix(parts[0], "", sep);
      assert parts[0] + "" == parts[0];
    } else {
      var tail := Join(parts[1..], sep);
      SplitJoin(parts[1..], sep);
      assert Join(parts, sep) == parts[0] + ([sep] + tail);
      SplitPrefix(parts[0], [sep] + tail, sep);
      assert ([sep] + tail)[1..] == tail;
      assert Split([sep] + tail, sep) == [""] + parts[1..];
      assert parts[0] + "" == parts[0];
      assert parts == [parts[0]] + parts[1..];
    }
  }

  /** In a string with exactly one `sep`, none follows the first. */
  lemma OneSeparator(s: string, sep: char)
    requires Count(s, sep) == 1
    ensures sep in s && sep !in s[IndexOf(s, sep) + 1..]
  {
    CountZero(s, sep);
    var i := IndexOf(s, sep);
    var before, after := s[..i], s[i + 1..];
    assert s == before + [sep] + after;
    CountAppend(before + [sep], after, sep);
    CountAppend(before, [sep], sep);
    CountZero(before, sep);
    CountZero(after, sep);
  }

  /**
   * A string with exactly one `sep` splits into the text before it and
   * the text after it; with any other number of separators it does not
   * split into two pieces.
   */
  lemma SplitTwo(s: string, sep: char)
    ensures |Split(s, sep)| == 2 <==> Count(s, sep) == 1
    ensures Count(s, sep) == 1 ==>
      sep in s && Split(s, sep) == [s[..IndexOf(s, sep)], s[IndexOf(s, sep) + 1..]]
  {
    if Count(s, sep) == 1 {
      SplitAtOnly(s, sep);
    }
  }

  /** The case of `SplitTwo` with one separator: the pieces on either side of it. */
  lemma SplitAtOnly(s: string, sep: char)
    requires Count(s, sep) == 1
    ensures sep in s && Split(s, sep) == [s[..IndexOf(s, sep)], s[IndexOf(s, sep) + 1..]]
  {
    OneSeparator(s, sep);
    var i := IndexOf(s, sep);
    assert s == s[..i] + [sep] + s[i + 1..] by {
      assert s == s[..i] + s[i..] && s[i..] == [s[i]] + s[i + 1..];
    }
    SplitAround(s, s[..i], s[i + 1..], sep);
  }

  /** Two separator-free pieces joined by one separator split back into those two pieces. */
  lemma SplitAround(s: string, a: string, b: string, sep: char)
    requires sep !in a && sep !in b && s == a + [sep] + b
    ensures Split(s, sep) == [a, b]
  {
    var pieces := [a, b];
    assert Join(pieces, sep) == a + [sep] + b by {
      assert pieces[1..] == [b];
    }
    SplitJoin(pieces, sep);
  }

  /** `s.TrimStart()`: `s` without its leading white space. */
  function TrimStart(s: string): string
  {
    if s != [] && IsWhiteSpace(s[0]) then TrimStart(s[1..]) else s
  }

  /** `s.TrimEnd()`: `s` without its trailing white space. */
  function TrimEnd(s: string): string
  {
    if s != [] && IsWhiteSpace(s[|s| - 1]) then TrimEnd(s[..|s| - 1]) else s
  }

  /** `TrimStart` drops a prefix of white space and stops at the first other character. */
  lemma {:induction false} TrimStartSuffix(s: string)
    ensures |TrimStart(s)| <= |s| && TrimStart(s) == s[|s| - |TrimStart(s)|..]
    ensures AllWhiteSpace(s[..|s| - |TrimStart(s)|])
    ensures TrimStart(s) == [] || !IsWhiteSpace(TrimStart(s)[0])
  {
    if s != [] && IsWhiteSpace(s[0]) {
      TrimStartSuffix(s[1..]);
      var k := |s| - |TrimStart(s)|;
      assert s[..k] == [s[0]] + s[1..][..k - 1];
    }
  }

  /** `TrimEnd` drops a suffix of white space and stops at the last other character. */
  lemma {:induction false} TrimEndPrefix(s: string)
    ensures |TrimEnd(s)| <= |s| && TrimEnd(s) == s[..|TrimEnd(s)|]
    ensures AllWhiteSpace(s[|TrimEnd(s)|..])
    ensures TrimEnd(s) == [] || !IsWhiteSpace(TrimEnd(s)[|TrimEnd(s)| - 1])
  {
    if s != [] && IsWhiteSpace(s[|s| - 1]) {
      var t := s[..|s| - 1];
      TrimEndPrefix(t);
      var k := |TrimEnd(s)|;
      assert s[k..] == t[k..] + [s[|s| - 1]];
    }
  }

  /** `s.Trim()`: `s` without white space at either end. */
  function Trim(s: string): (r: string)
    ensures IsTrimmed(r)
  {
    TrimStartSuffix(s);
    TrimEndPrefix(TrimStart(s));
    TrimEnd(TrimStart(s))
  }

  /** Whatever `Trim` removed was white space: `s` is `Trim(s)` padded on both sides. */
  lemma TrimDecompose(s: string) returns (p: string, q: string)
    ensures AllWhiteSpace(p) && AllWhiteSpace(q) && s == p + Trim(s) + q
  {
    var t := TrimStart(s);
    TrimStartSuffix(s);
    TrimEndPrefix(t);
    p := s[..|s| - |t|];
    assert s == p + t;
    var r := TrimEnd(t);
    q := t[|r|..];
    assert t == r + q;
    assert r == Trim(s);
    assert s == p + r + q;
  }

  /** Leading white space of `p + u` is exactly `p` when `u` starts with a non-space. */
  lemma {:induction false} TrimStartPadded(p: string, u: string)
    requires AllWhiteSpace(p) && (u == [] || !IsWhiteSpace(u[0]))
    ensures TrimStart(p + u) == u
  {
    if p == [] {
      assert p + u == u;
    } else {
      assert (p + u)[0] == p[0];
      assert (p + u)[1..] == p[1..] + u;
      TrimStartPadded(p[1..], u);
    }
  }

  /** Trailing white space of `u + q` is exactly `q` when `u` ends with a non-space. */
  lemma {:induction false} TrimEndPadded(u: string, q: string)
    requires AllWhiteSpace(q) && (u == [] || !IsWhiteSpace(u[|u| - 1]))
    ensures TrimEnd(u + q) == u
  {
    if q == [] {
      assert u + q == u;
    } else {
      var s := u + q;
      assert s[|s| - 1] == q[|q| - 1];
      assert s[..|s| - 1] == u + q[..|q| - 1];
      TrimEndPadded(u, q[..|q| - 1]);
    }
  }

  /** `Trim` removes exactly the white space at the ends and nothing else. */
  lemma TrimPadded(p: string, t: string, q: string)
    requires AllWhiteSpace(p) && AllWhiteSpace(q) && IsTrimmed(t)
    ensures Trim(p + t + q) == t
  {
    if t == [] {
      assert p + t + q == p + q;
      assert AllWhiteSpace(p + q);
      TrimStartPadded(p + q, "");
      assert p + q + "" == p + q;
    } else {
      assert p + t + q == p + (t + q);
      TrimStartPadded(p, t + q);
      TrimEndPadded(t, q);
    }
  }

  /** Trimming twice is trimming once. */
  lemma TrimIdempotent(s: string)
    ensures Trim(Trim(s)) == Trim(s)
  {
  }
}
