/** Strings the way the program's library handles them. */
module Text {

  /** Go's `<` on strings: by code point, a proper prefix first. */
  predicate LexLess(a: string, b: string) {
    b != "" && (a == "" || a[0] < b[0] || (a[0] == b[0] && LexLess(a[1..], b[1..])))
  }

  lemma {:induction false} LexTotal(a: string, b: string)
    ensures LexLess(a, b) || LexLess(b, a) || a == b
    ensures !(LexLess(a, b) && LexLess(b, a))
    ensures !LexLess(a, a)
  {
    if a != "" && b != "" {
      LexTotal(a[1..], b[1..]);
      assert a == [a[0]] + a[1..] && b == [b[0]] + b[1..];
    }
    if a != "" {
      LexTotal(a[1..], a[1..]);
    }
  }

  lemma {:induction false} LexTransitive(a: string, b: string, c: string)
    requires LexLess(a, b) && LexLess(b, c)
    ensures LexLess(a, c)
  {
    if a != "" && a[0] == b[0] && b[0] == c[0] {
      LexTransitive(a[1..], b[1..], c[1..]);
    }
  }

  /** Unicode white space, as `strings.TrimSpace` knows it. */
  predicate IsSpace(c: char): (r: bool)
    ensures c == ' ' || c == '\t' || c == '\n' || c == '\r' ==> r
    ensures '!' <= c <= '~' ==> !r
  {
    || c == ' ' || '\t' <= c <= '\r' || c == '\U{85}' || c == '\U{A0}' || c == '\U{1680}'
    || '\U{2000}' <= c <= '\U{200A}' || c == '\U{2028}' || c == '\U{2029}' || c == '\U{202F}'
    || c == '\U{205F}' || c == '\U{3000}'
  }

  function TrimLeft(s: string): string {
    if s != "" && IsSpace(s[0]) then TrimLeft(s[1..]) else s
  }

  function TrimRight(s: string): string {
    if s != "" && IsSpace(s[|s| - 1]) then TrimRight(s[..|s| - 1]) else s
  }

  function TrimSpace(s: string): string {
    TrimRight(TrimLeft(s))
  }

  /** Neither end is white space. */
  predicate Trimmed(s: string) {
    s != "" ==> !IsSpace(s[0]) && !IsSpace(s[|s| - 1])
  }

  /** The pieces between occurrences of `sep`; always at least one. */
  function Split(s: string, sep: char): (r: seq<string>)
    ensures r != []
  {
    if s == "" then [""]
    else
      var rest := Split(s[1..], sep);
      if s[0] == sep then [""] + rest else [[s[0]] + rest[0]] + rest[1..]
  }

  function Join(parts: seq<string>, sep: string): string {
    if parts == [] then ""
    else if |parts| == 1 then parts[0]
    else parts[0] + sep + Join(parts[1..], sep)
  }

  predicate AllSpace(s: string) {
    forall i :: 0 <= i < |s| ==> IsSpace(s[i])
  }

  lemma {:induction false} TrimLeftSuffix(s: string) returns (n: nat)
    ensures n <= |s| && TrimLeft(s) == s[n..] && AllSpace(s[..n])
    ensures TrimLeft(s) != "" ==> !IsSpace(TrimLeft(s)[0])
  {
    if s != "" && IsSpace(s[0]) {
      var k := TrimLeftSuffix(s[1..]);
      n := k + 1;
      assert s[1..][k..] == s[n..] && s[..n] == [s[0]] + s[1..][..k];
    } else {
      n := 0;
    }
  }

  lemma {:induction false} TrimRightPrefix(s: string) returns (n: nat)
    ensures n <= |s| && TrimRight(s) == s[..n] && AllSpace(s[n..])
    ensures n > 0 ==> !IsSpace(s[n - 1])
  {
    if s != "" && IsSpace(s[|s| - 1]) {
      n := TrimRightPrefix(s[..|s| - 1]);
      assert s[..|s| - 1][..n] == s[..n] && s[n..] == s[..|s| - 1][n..] + [s[|s| - 1]];
    } else {
      n := |s|;
    }
  }

  lemma TrimmedPrefix(l: string, n: nat)
    requires n <= |l| && (l != "" ==> !IsSpace(l[0]))
    requires n > 0 ==> !IsSpace(l[n - 1])
    ensures Trimmed(l[..n])
  {
  }

  lemma PrefixOfSuffix(s: string, m: nat, k: nat)
    requires m <= |s| && k <= |s[m..]|
    ensures s[m..][..k] == s[m..m + k] && s[m..][k..] == s[m + k..]
  {
  }

  /** Trimming keeps a stretch of the string with no white space at either end, and drops nothing but
      white space. */
  lemma TrimSpaceStretch(s: string) returns (m: nat, n: nat)
    ensures Trimmed(TrimSpace(s))
    ensures m <= n <= |s| && TrimSpace(s) == s[m..n] && AllSpace(s[..m]) && AllSpace(s[n..])
  {
    m := TrimLeftSuffix(s);
    var k := TrimRightPrefix(TrimLeft(s));
    TrimmedPrefix(TrimLeft(s), k);
    PrefixOfSuffix(s, m, k);
    n := m + k;
  }

  /** One line feed around a trimmed string is trimmed away again. */
  lemma TrimSpaceUndoesLineFeeds(s: string)
    requires Trimmed(s) && s != ""
    ensures TrimSpace(s) == s && TrimSpace("\n" + s) == s && TrimSpace(s + "\n") == s && TrimSpace("\n" + s + "\n") == s
  {
    assert ("\n" + s)[1..] == s && ("\n" + s + "\n")[1..] == s + "\n" && (s + "\n")[..|s|] == s;
    assert TrimLeft("\n" + s) == TrimLeft(s) == s;
    assert TrimLeft(s + "\n") == s + "\n";
    assert TrimLeft("\n" + s + "\n") == TrimLeft(s + "\n");
    assert TrimRight(s + "\n") == TrimRight(s) == s;
  }

  /** `part` is `kept` with white space around it. */
  ghost predicate Padded(part: string, kept: string) {
    exists m, n :: 0 <= m <= n <= |part| && kept == part[m..n] && AllSpace(part[..m]) && AllSpace(part[n..])
  }

  /** White space up to m and from n on, none at the ends in between. */
  ghost predicate Bounds(s: string, m: nat, n: nat) {
    && m <= n <= |s|
    && (forall k :: 0 <= k < m || n <= k < |s| ==> IsSpace(s[k]))
    && (m < n ==> !IsSpace(s[m]) && !IsSpace(s[n - 1]))
  }

  lemma StretchBounds(s: string, m: nat, n: nat)
    requires m <= n <= |s| && AllSpace(s[..m]) && AllSpace(s[n..]) && Trimmed(s[m..n])
    ensures Bounds(s, m, n)
  {
    assert forall k :: 0 <= k < m ==> s[..m][k] == s[k];
    assert forall k :: n <= k < |s| ==> s[n..][k - n] == s[k];
    assert forall k :: m <= k < n ==> s[m..n][k - m] == s[k];
  }

  lemma BoundsAgree(s: string, m: nat, n: nat, i: nat, j: nat)
    requires Bounds(s, m, n) && Bounds(s, i, j)
    ensures s[m..n] == s[i..j]
  {
    assert m < n || i < j ==> m == i && n == j;
  }

  /** Trimming is the one way to drop white space at both ends and keep a string with none there. */
  lemma TrimSpaceIsOnly(s: string, t: string)
    requires Padded(s, t) && Trimmed(t)
    ensures t == TrimSpace(s)
  {
    var m, n :| 0 <= m <= n <= |s| && t == s[m..n] && AllSpace(s[..m]) && AllSpace(s[n..]);
    var i, j := TrimSpaceStretch(s);
    StretchBounds(s, m, n);
    StretchBounds(s, i, j);
    BoundsAgree(s, m, n, i, j);
  }

  // ---------------------------------------------------------------- splitting and joining

  lemma {:induction false} JoinSplit(s: string, sep: char)
    ensures Join(Split(s, sep), [sep]) == s
  {
    if s != "" {
      JoinSplit(s[1..], sep);
      var rest := Split(s[1..], sep);
      if s[0] == sep {
        assert ([""] + rest)[1..] == rest;
        assert Join([""] + rest, [sep]) == "" + [sep] + Join(rest, [sep]);
      } else {
        JoinLonger(s[0], rest, [sep]);
      }
      assert s == [s[0]] + s[1..];
    }
  }

  lemma JoinLonger(c: char, parts: seq<string>, sep: string)
    requires parts != []
    ensures Join([[c] + parts[0]] + parts[1..], sep) == [c] + Join(parts, sep)
  {
    var longer := [[c] + parts[0]] + parts[1..];
    assert longer[1..] == parts[1..];
    if |parts| > 1 {
      assert ([c] + parts[0]) + sep + Join(parts[1..], sep) == [c] + (parts[0] + sep + Join(parts[1..], sep));
    }
  }

  /** Splitting is the one way to cut a string at every separator. */
  lemma {:induction false} SplitIsOnly(parts: seq<string>, sep: char)
    requires parts != [] && forall k :: 0 <= k < |parts| ==> sep !in parts[k]
    ensures Split(Join(parts, [sep]), sep) == parts
  {
    if |parts| == 1 {
      SplitAtNone(parts[0], sep);
    } else {
      SplitAtFirst(parts[0], Join(parts[1..], [sep]), sep);
      SplitIsOnly(parts[1..], sep);
      assert parts == [parts[0]] + parts[1..];
    }
  }

  lemma {:induction false} SplitAtFirst(a: string, b: string, sep: char)
    requires sep !in a
    ensures Split(a + [sep] + b, sep) == [a] + Split(b, sep)
  {
    if a == "" {
      assert (a + [sep] + b)[1..] == b;
    } else {
      assert (a + [sep] + b)[1..] == a[1..] + [sep] + b;
      SplitAtFirst(a[1..], b, sep);
      assert a == [a[0]] + a[1..];
    }
  }

  lemma {:induction false} SplitAtNone(a: string, sep: char)
    requires sep !in a
    ensures Split(a, sep) == [a]
  {
    if a != "" {
      SplitAtNone(a[1..], sep);
      assert a == [a[0]] + a[1..];
    }
  }
}
