/** The string operations of Rust's `str` that the SMTP engine relies on,
    restricted to ASCII text: `trim`, `split_whitespace`, `to_uppercase`,
    `starts_with`, `ends_with`, `find`, `join` and `contains`. */
module Text {
  import opened Wrappers

  /** ASCII whitespace as Rust's `char::is_whitespace` classifies it: the space
      and the control characters tab, line feed, vertical tab, form feed and
      carriage return. */
  predicate IsWhitespace(c: char) {
    c == ' ' || ('\t' <= c <= '\r')
  }

  predicate NoWhitespace(s: string) {
    forall i :: 0 <= i < |s| ==> !IsWhitespace(s[i])
  }

  predicate AllWhitespace(s: string) {
    forall i :: 0 <= i < |s| ==> IsWhitespace(s[i])
  }

  /** Neither end of `s` is whitespace: what `trim` leaves behind. */
  predicate Trimmed(s: string) {
    s == [] || (!IsWhitespace(s[0]) && !IsWhitespace(s[|s| - 1]))
  }

  predicate StartsWith(s: string, prefix: string) {
    |prefix| <= |s| && s[..|prefix|] == prefix
  }

  predicate EndsWith(s: string, suffix: string) {
    |suffix| <= |s| && s[|s| - |suffix|..] == suffix
  }

  // ---------------------------------------------------------------------
  // trim

  function TrimStart(s: string): (r: string)
    ensures |r| <= |s|
    ensures AllWhitespace(s[..|s| - |r|])
    ensures r == [] || !IsWhitespace(r[0])
  {
    if s != [] && IsWhitespace(s[0]) then
      var r := TrimStart(s[1..]);
      assert s[..|s| - |r|] == [s[0]] + s[1..][..|s| - 1 - |r|];
      r
    else
      s
  }

  function TrimEnd(s: string): (r: string)
    ensures |r| <= |s|
    ensures AllWhitespace(s[|r|..])
    ensures r == [] || !IsWhitespace(r[|r| - 1])
  {
    if s != [] && IsWhitespace(s[|s| - 1]) then
      var r := TrimEnd(s[..|s| - 1]);
      assert s[|r|..] == s[..|s| - 1][|r|..] + [s[|s| - 1]];
      r
    else
      s
  }

  /** `TrimStart(s)` is a suffix of `s`. */
  lemma {:induction false} TrimStartIsSuffix(s: string)
    ensures TrimStart(s) == s[|s| - |TrimStart(s)|..]
    decreases |s|
  {
    if s != [] && IsWhitespace(s[0]) {
      TrimStartIsSuffix(s[1..]);
    }
  }

  /** `TrimEnd(s)` is a prefix of `s`. */
  lemma {:induction false} TrimEndIsPrefix(s: string)
    ensures TrimEnd(s) == s[..|TrimEnd(s)|]
    decreases |s|
  {
    if s != [] && IsWhitespace(s[|s| - 1]) {
      TrimEndIsPrefix(s[..|s| - 1]);
    }
  }

  /** Rust's `str::trim`: `s` with leading and trailing whitespace removed.
      `TrimSplit` puts the removed whitespace back around the result. */
  function Trim(s: string): (r: string)
    ensures Trimmed(r)
    ensures |r| <= |s|
  {
    TrimEndIsPrefix(TrimStart(s));
    TrimEnd(TrimStart(s))
  }

  /** A string is its trim with whitespace on either side. */
  lemma TrimSplit(s: string) returns (a: string, b: string)
    ensures s == a + Trim(s) + b && AllWhitespace(a) && AllWhitespace(b)
  {
    var t := TrimStart(s);
    var r := TrimEnd(t);
    TrimStartIsSuffix(s);
    TrimEndIsPrefix(t);
    a := s[..|s| - |t|];
    b := t[|r|..];
    SuffixPrefixSplit(s, t, r);
  }

  /** A prefix `r` of a suffix `t` of `s` splits `s` in three. */
  lemma SuffixPrefixSplit(s: string, t: string, r: string)
    requires |t| <= |s| && t == s[|s| - |t|..] && |r| <= |t| && r == t[..|r|]
    ensures s == s[..|s| - |t|] + r + t[|r|..]
  {
    assert s == s[..|s| - |t|] + t;
    assert t == r + t[|r|..];
  }

  lemma AllWhitespaceConcat(a: string, b: string)
    requires AllWhitespace(a) && AllWhitespace(b)
    ensures AllWhitespace(a + b)
  {
  }

  lemma NoWhitespaceConcat(a: string, b: string)
    requires NoWhitespace(a) && NoWhitespace(b)
    ensures NoWhitespace(a + b)
  {
  }

  /** `Trim` strips exactly the whitespace padding around a trimmed core, so
      it is determined by the characterisation in its contract. */
  lemma {:induction false} TrimPadded(a: string, t: string, b: string)
    requires AllWhitespace(a) && AllWhitespace(b) && Trimmed(t)
    ensures Trim(a + t + b) == t
  {
    if t == [] {
      assert a + t + b == a + b;
      TrimAllWhitespace(a + b) by {
        AllWhitespaceConcat(a, b);
      }
    } else {
      var u := t + b;
      assert a + t + b == a + u;
      assert TrimStart(a + u) == u by {
        assert u[0] == t[0];
        TrimStartPadded(a, u);
      }
      assert TrimEnd(u) == t by {
        TrimEndPadded(t, b);
      }
    }
  }

  /** Text of whitespace alone trims to nothing. */
  lemma TrimAllWhitespace(w: string)
    requires AllWhitespace(w)
    ensures Trim(w) == []
  {
    TrimStartPadded(w, []);
    assert w + [] == w;
  }

  lemma {:induction false} TrimStartPadded(a: string, u: string)
    requires AllWhitespace(a) && (u == [] || !IsWhitespace(u[0]))
    ensures TrimStart(a + u) == u
    decreases |a|
  {
    if a == [] {
      assert a + u == u;
    } else {
      assert (a + u)[1..] == a[1..] + u;
      TrimStartPadded(a[1..], u);
    }
  }

  lemma {:induction false} TrimEndAllWhitespace(b: string)
    requires AllWhitespace(b)
    ensures TrimEnd(b) == []
    decreases |b|
  {
    if b != [] {
      TrimEndAllWhitespace(b[..|b| - 1]);
    }
  }

  lemma {:induction false} TrimEndPadded(t: string, b: string)
    requires AllWhitespace(b) && t != [] && !IsWhitespace(t[|t| - 1])
    ensures TrimEnd(t + b) == t
    decreases |b|
  {
    if b == [] {
      assert t + b == t;
    } else {
      assert (t + b)[..|t + b| - 1] == t + b[..|b| - 1];
      TrimEndPadded(t, b[..|b| - 1]);
    }
  }

  /** A string with no whitespace at either end is its own trim. */
  lemma TrimOfTrimmed(t: string)
    requires Trimmed(t)
    ensures Trim(t) == t
  {
    TrimPadded([], t, []);
    assert [] + t + [] == t;
  }

  /** `Trim(s)` is empty exactly when `s` is all whitespace. */
  lemma TrimEmptyIff(s: string)
    ensures Trim(s) == [] <==> AllWhitespace(s)
  {
    var t := TrimStart(s);
    var k := |s| - |t|;
    TrimStartIsSuffix(s);
    if TrimEnd(t) == [] {
      assert t[0..] == t;
      assert s == s[..k] + t;
      AllWhitespaceConcat(s[..k], t);
    }
  }

  // ---------------------------------------------------------------------
  // split_whitespace

  /** Length of the run of non-whitespace characters that starts `s`. */
  function WordLength(s: string): (n: nat)
    ensures n <= |s|
    ensures NoWhitespace(s[..n])
    ensures n < |s| ==> IsWhitespace(s[n])
    ensures s != [] && !IsWhitespace(s[0]) ==> n > 0
  {
    if s == [] || IsWhitespace(s[0]) then 0
    else
      var n := WordLength(s[1..]);
      assert s[..n + 1] == [s[0]] + s[1..][..n];
      1 + n
  }

  /** Rust's `str::split_whitespace`: the maximal runs of non-whitespace
      characters of `s`, in order. */
  function SplitWhitespace(s: string): (r: seq<string>)
    ensures forall i :: 0 <= i < |r| ==> r[i] != [] && NoWhitespace(r[i])
    decreases |s|
  {
    if s == [] then []
    else if IsWhitespace(s[0]) then SplitWhitespace(s[1..])
    else
      var n := WordLength(s);
      [s[..n]] + SplitWhitespace(s[n..])
  }

  /** The characters of `s` that are not whitespace. */
  function RemoveWhitespace(s: string): string {
    if s == [] then []
    else if IsWhitespace(s[0]) then RemoveWhitespace(s[1..])
    else [s[0]] + RemoveWhitespace(s[1..])
  }

  /** The strings laid end to end. This is joining with an empty separator
      (`ConcatIsJoin`), written without the one-element case so that
      induction over the head is direct. */
  function Concat(ss: seq<string>): string {
    if ss == [] then [] else ss[0] + Concat(ss[1..])
  }

  lemma {:induction false} RemoveWhitespaceAppend(a: string, b: string)
    ensures RemoveWhitespace(a + b) == RemoveWhitespace(a) + RemoveWhitespace(b)
    decreases |a|
  {
    if a == [] {
      assert a + b == b;
    } else {
      assert (a + b)[1..] == a[1..] + b;
      RemoveWhitespaceAppend(a[1..], b);
    }
  }

  lemma {:induction false} RemoveWhitespaceOfWord(w: string)
    requires NoWhitespace(w)
    ensures RemoveWhitespace(w) == w
    decreases |w|
  {
    if w != [] {
      RemoveWhitespaceOfWord(w[1..]);
    }
  }

  /** Tokenising loses nothing but whitespace: the tokens, concatenated, are
      the non-whitespace characters of the line in their original order. */
  lemma {:induction false} SplitWhitespaceKeepsText(s: string)
    ensures Concat(SplitWhitespace(s)) == RemoveWhitespace(s)
    decreases |s|
  {
    if s == [] {
    } else if IsWhitespace(s[0]) {
      SplitWhitespaceKeepsText(s[1..]);
    } else {
      var n := WordLength(s);
      var r := SplitWhitespace(s);
      assert r == [s[..n]] + SplitWhitespace(s[n..]);
      assert r[1..] == SplitWhitespace(s[n..]);
      SplitWhitespaceKeepsText(s[n..]);
      assert s == s[..n] + s[n..];
      RemoveWhitespaceAppend(s[..n], s[n..]);
      RemoveWhitespaceOfWord(s[..n]);
    }
  }

  /** A line has no tokens exactly when it is all whitespace. */
  lemma {:induction false} SplitWhitespaceEmptyIff(s: string)
    ensures SplitWhitespace(s) == [] <==> AllWhitespace(s)
    decreases |s|
  {
    if s != [] {
      if IsWhitespace(s[0]) {
        SplitWhitespaceEmptyIff(s[1..]);
        if AllWhitespace(s[1..]) {
          assert forall i :: 0 <= i < |s| ==> IsWhitespace(s[i]) by {
            forall i | 0 <= i < |s| ensures IsWhitespace(s[i]) {
              if i > 0 { assert s[i] == s[1..][i - 1]; }
            }
          }
        } else {
          var j :| 0 <= j < |s[1..]| && !IsWhitespace(s[1..][j]);
          assert s[j + 1] == s[1..][j];
        }
      }
    }
  }

  /** The first token of `w + rest`, when `w` is a non-empty word that is
      followed by whitespace or by nothing, is `w`. */
  lemma {:induction false} SplitWhitespaceWord(w: string, rest: string)
    requires w != [] && NoWhitespace(w)
    requires rest == [] || IsWhitespace(rest[0])
    ensures SplitWhitespace(w + rest) == [w] + SplitWhitespace(rest)
  {
    var s := w + rest;
    WordLengthOfWord(w, rest);
    assert s[..|w|] == w;
    assert s[|w|..] == rest;
  }

  lemma {:induction false} WordLengthOfWord(w: string, rest: string)
    requires NoWhitespace(w)
    requires rest == [] || IsWhitespace(rest[0])
    ensures WordLength(w + rest) == |w|
    decreases |w|
  {
    if w == [] {
      assert w + rest == rest;
    } else {
      assert (w + rest)[0] == w[0];
      assert (w + rest)[1..] == w[1..] + rest;
      WordLengthOfWord(w[1..], rest);
    }
  }

  lemma {:induction false} SplitWhitespaceSkipsSpace(s: string)
    ensures SplitWhitespace(" " + s) == SplitWhitespace(s)
  {
    assert (" " + s)[1..] == s;
  }

  function Join(parts: seq<string>, sep: string): string
    decreases |parts|
  {
    if parts == [] then []
    else if |parts| == 1 then parts[0]
    else parts[0] + sep + Join(parts[1..], sep)
  }

  lemma {:induction false} ConcatIsJoin(ss: seq<string>)
    ensures Concat(ss) == Join(ss, "")
    decreases |ss|
  {
    if |ss| == 1 {
      assert Concat(ss) == ss[0] + Concat([]);
    } else if |ss| > 1 {
      ConcatIsJoin(ss[1..]);
      assert Join(ss, "") == ss[0] + "" + Join(ss[1..], "");
    }
  }

  /** Tokenising inverts joining with single spaces: a sequence of non-empty
      words without whitespace is recovered from the line that holds them
      separated by one space. */
  lemma {:induction false} SplitJoinSpaces(words: seq<string>)
    requires forall i :: 0 <= i < |words| ==> words[i] != [] && NoWhitespace(words[i])
    ensures SplitWhitespace(Join(words, " ")) == words
    decreases |words|
  {
    if |words| == 1 {
      SplitWhitespaceWord(words[0], []);
      assert words[0] + [] == words[0];
    } else if |words| > 1 {
      var rest := Join(words[1..], " ");
      SplitJoinSpaces(words[1..]);
      assert Join(words, " ") == words[0] + (" " + rest);
      SplitWhitespaceWord(words[0], " " + rest);
      SplitWhitespaceSkipsSpace(rest);
      assert words == [words[0]] + words[1..];
    }
  }

  lemma JoinPair(a: string, sep: string, b: string)
    ensures Join([a, b], sep) == a + sep + b
  {
    assert [a, b][1..] == [b];
  }

  // ---------------------------------------------------------------------
  // to_uppercase

  function UpperChar(c: char): char {
    if 'a' <= c <= 'z' then (c as int - 32) as char else c
  }

  /** Rust's `str::to_uppercase` on ASCII text. */
  function ToUpper(s: string): (r: string)
    ensures |r| == |s|
    ensures forall i :: 0 <= i < |s| ==> r[i] == UpperChar(s[i])
  {
    if s == [] then [] else [UpperChar(s[0])] + ToUpper(s[1..])
  }

  /** Upper-casing works character by character, so it commutes with taking
      a prefix and leaves already upper-case text alone. */
  lemma ToUpperAppend(a: string, b: string)
    ensures ToUpper(a + b) == ToUpper(a) + ToUpper(b)
  {
    var ab := a + b;
    var x := ToUpper(ab);
    var ua := ToUpper(a);
    var ub := ToUpper(b);
    var y := ua + ub;
    assert |x| == |y|;
    forall i | 0 <= i < |ab| ensures x[i] == y[i] {
      if i < |a| {
        assert ab[i] == a[i] && y[i] == ua[i];
      } else {
        assert ab[i] == b[i - |a|] && y[i] == ub[i - |a|];
      }
    }
    assert x == y;
  }

  predicate IsUpper(s: string) {
    forall i :: 0 <= i < |s| ==> UpperChar(s[i]) == s[i]
  }

  lemma ToUpperOfUpper(s: string)
    requires IsUpper(s)
    ensures ToUpper(s) == s
  {
  }

  // ---------------------------------------------------------------------
  // find

  /** Rust's `str::find` for a single character: the first index of `c`. */
  function Find(s: string, c: char): (r: Option<nat>)
    ensures r.None? <==> c !in s
    ensures r.Some? ==> r.value < |s| && s[r.value] == c && c !in s[..r.value]
  {
    if s == [] then None
    else if s[0] == c then Some(0)
    else
      match Find(s[1..], c)
      case None => None
      case Some(i) =>
        assert s[..i + 1] == [s[0]] + s[1..][..i];
        Some(i + 1)
  }

  /** The first `c` in `a + b` is the first character of `b` when `a` holds
      none. */
  lemma FindAfter(a: string, c: char, b: string)
    requires c !in a && b != [] && b[0] == c
    ensures Find(a + b, c) == Some(|a|)
  {
    var s := a + b;
    assert s[|a|] == c;
    assert s[..|a|] == a;
  }

  // ---------------------------------------------------------------------
  // contains

  /** `pattern` appears in `s` starting at index `k`. */
  predicate OccursAt(pattern: string, s: string, k: nat) {
    k + |pattern| <= |s| && s[k..k + |pattern|] == pattern
  }

  predicate IsSubstring(pattern: string, s: string) {
    exists k: nat | k <= |s| :: OccursAt(pattern, s, k)
  }
}
