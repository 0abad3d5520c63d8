/**
  The Python string and list built-ins that ai-service/main.py relies on:
  `str.lower()`, `str.split()` with no separator, `" ".join(...)`, the
  substring test `p in s`, and slicing `xs[:k]`.
*/
module PyText {

  /** The characters `str.split()` treats as whitespace. */
  predicate IsSpace(c: char) {
    var n := c as int;
    || 0x09 <= n <= 0x0d || 0x1c <= n <= 0x20
    || n == 0x85 || n == 0xa0 || n == 0x1680
    || 0x2000 <= n <= 0x200a
    || n == 0x2028 || n == 0x2029 || n == 0x202f || n == 0x205f || n == 0x3000
  }

  /** `str.lower()` on ASCII letters; other characters are left as they are. */
  function LowerChar(c: char): char {
    if 'A' <= c <= 'Z' then ((c as int) + 32) as char else c
  }

  function Lower(s: string): (r: string)
    ensures |r| == |s|
    ensures forall i :: 0 <= i < |s| ==> r[i] == LowerChar(s[i])
  {
    seq(|s|, i requires 0 <= i < |s| => LowerChar(s[i]))
  }

  /** A word as `split()` yields it: non-empty, no whitespace. */
  predicate IsWord(w: string) {
    w != [] && forall i :: 0 <= i < |w| ==> !IsSpace(w[i])
  }

  /** Length of the run of non-whitespace characters at the start of `s`. */
  function WordLength(s: string): (n: nat)
    ensures n <= |s|
    ensures forall i :: 0 <= i < n ==> !IsSpace(s[i])
    ensures n < |s| ==> IsSpace(s[n])
  {
    if s == [] || IsSpace(s[0]) then 0 else 1 + WordLength(s[1..])
  }

  /** `s.split()`: the maximal runs of non-whitespace characters, in order. */
  function Words(s: string): (ws: seq<string>)
    ensures forall i :: 0 <= i < |ws| ==> IsWord(ws[i])
    decreases |s|
  {
    if s == [] then []
    else if IsSpace(s[0]) then Words(s[1..])
    else
      var n := WordLength(s);
      [s[..n]] + Words(s[n..])
  }

  /** A text with no characters outside whitespace. */
  predicate IsBlank(s: string) {
    forall i :: 0 <= i < |s| ==> IsSpace(s[i])
  }

  /** The words' characters, run together (`"".join(ws)`). */
  function Concat(ws: seq<string>): string {
    if ws == [] then "" else ws[0] + Concat(ws[1..])
  }

  /** The characters of `s` that are not whitespace, in order. */
  function NonSpace(s: string): string {
    if s == [] then "" else (if IsSpace(s[0]) then "" else [s[0]]) + NonSpace(s[1..])
  }

  /** `split()` yields no word exactly when the text is empty or all whitespace. */
  lemma {:induction false} WordsEmptyIffBlank(s: string)
    ensures Words(s) == [] <==> IsBlank(s)
    decreases |s|
  {
    if s != [] && IsSpace(s[0]) {
      WordsEmptyIffBlank(s[1..]);
      assert IsBlank(s) <==> IsBlank(s[1..]) by {
        if IsBlank(s[1..]) {
          forall i | 0 <= i < |s| ensures IsSpace(s[i]) {
            if i > 0 {
              assert s[i] == s[1..][i - 1];
            }
          }
        }
      }
    }
  }

  /** A single word splits into itself. */
  lemma WordsOfWord(w: string)
    requires IsWord(w)
    ensures Words(w) == [w]
  {
    WordsAfterWord(w, "");
    assert w + "" == w;
  }

  /** A whitespace character never lies inside a word: text on either side of
      it splits on its own. So the words are the maximal non-whitespace runs. */
  lemma {:induction false} WordsSeparatedBySpace(a: string, c: char, b: string)
    requires IsSpace(c)
    ensures Words(a + [c] + b) == Words(a) + Words(b)
    decreases |a|
  {
    var s := a + [c] + b;
    if a == [] {
      assert s == [c] + b;
      assert s[1..] == b;
    } else if IsSpace(a[0]) {
      assert s[1..] == a[1..] + [c] + b;
      WordsSeparatedBySpace(a[1..], c, b);
    } else {
      var n := WordLength(a);
      WordLengthBeforeSpace(a, c, b);
      assert s[..n] == a[..n];
      assert s[n..] == a[n..] + [c] + b;
      WordsSeparatedBySpace(a[n..], c, b);
    }
  }

  lemma {:induction false} WordLengthBeforeSpace(a: string, c: char, b: string)
    requires IsSpace(c)
    ensures WordLength(a + [c] + b) == WordLength(a)
    decreases |a|
  {
    var s := a + [c] + b;
    if a != [] && !IsSpace(a[0]) {
      assert s[1..] == a[1..] + [c] + b;
      WordLengthBeforeSpace(a[1..], c, b);
    }
  }

  /** Splitting drops the whitespace and keeps every other character, in order. */
  lemma {:induction false} WordsKeepCharacters(s: string)
    ensures Concat(Words(s)) == NonSpace(s)
    decreases |s|
  {
    if s != [] {
      if IsSpace(s[0]) {
        WordsKeepCharacters(s[1..]);
      } else {
        var n := WordLength(s);
        WordsKeepCharacters(s[n..]);
        NonSpaceOfWord(s, n);
        assert Words(s)[1..] == Words(s[n..]);
      }
    }
  }

  lemma {:induction false} NonSpaceOfWord(s: string, n: nat)
    requires n <= |s|
    requires forall i :: 0 <= i < n ==> !IsSpace(s[i])
    ensures NonSpace(s) == s[..n] + NonSpace(s[n..])
    decreases n
  {
    if n > 0 {
      NonSpaceOfWord(s[1..], n - 1);
      assert s[1..][n - 1..] == s[n..];
      assert s[..n] == [s[0]] + s[1..][..n - 1];
    }
  }

  /** `" ".join(ws)`. */
  function JoinWords(ws: seq<string>): string {
    if ws == [] then ""
    else if |ws| == 1 then ws[0]
    else ws[0] + " " + JoinWords(ws[1..])
  }

  /** `xs[:k]`, where a negative `k` counts from the end. */
  function Prefix<T>(xs: seq<T>, k: int): (r: seq<T>)
    ensures |r| <= |xs| && r == xs[..|r|]
    ensures k >= 0 ==> |r| == if k <= |xs| then k else |xs|
    ensures k < 0 ==> |r| == if |xs| + k >= 0 then |xs| + k else 0
  {
    if k >= 0 then (if k <= |xs| then xs[..k] else xs)
    else if |xs| + k >= 0 then xs[..|xs| + k]
    else []
  }

  /** `p in s` for strings. */
  predicate IsInfix(p: string, s: string)
    decreases |s|
  {
    p <= s || (s != [] && IsInfix(p, s[1..]))
  }

  predicate OccursAt(p: string, s: string, i: int) {
    0 <= i <= |s| - |p| && s[i..i + |p|] == p
  }

  /** The same test, stated by position: `p` occurs at some index of `s`. */
  lemma IsInfixAt(p: string, s: string)
    ensures IsInfix(p, s) <==> exists i :: OccursAt(p, s, i)
  {
    if IsInfix(p, s) {
      var i := InfixPosition(p, s);
    }
    if exists i :: OccursAt(p, s, i) {
      var i :| OccursAt(p, s, i);
      PositionIsInfix(p, s, i);
    }
  }

  lemma {:induction false} InfixPosition(p: string, s: string) returns (i: int)
    requires IsInfix(p, s)
    ensures OccursAt(p, s, i)
    decreases |s|
  {
    if p <= s {
      i := 0;
    } else {
      var j := InfixPosition(p, s[1..]);
      i := j + 1;
      forall k | 0 <= k < |p| ensures s[i..i + |p|][k] == p[k] {
        assert s[i..i + |p|][k] == s[1..][j..j + |p|][k];
      }
    }
  }

  lemma {:induction false} PositionIsInfix(p: string, s: string, i: int)
    requires OccursAt(p, s, i)
    ensures IsInfix(p, s)
    decreases |s|
  {
    if i > 0 {
      assert s[1..][i - 1..i - 1 + |p|] == s[i..i + |p|];
      PositionIsInfix(p, s[1..], i - 1);
    } else {
      assert s[..|p|] == p;
    }
  }

  // ---------------------------------------------------------------------
  // How split and join fit together
  // ---------------------------------------------------------------------

  lemma {:induction false} WordLengthOfWord(w: string, rest: string)
    requires IsWord(w)
    requires rest == [] || IsSpace(rest[0])
    ensures WordLength(w + rest) == |w|
    decreases |w|
  {
    if |w| > 1 {
      assert (w + rest)[1..] == w[1..] + rest;
      WordLengthOfWord(w[1..], rest);
    } else {
      assert (w + rest)[1..] == rest;
    }
  }

  /** A word followed by whitespace (or by nothing) splits off as one word. */
  lemma WordsAfterWord(w: string, rest: string)
    requires IsWord(w)
    requires rest == [] || IsSpace(rest[0])
    ensures Words(w + rest) == [w] + Words(rest)
  {
    WordLengthOfWord(w, rest);
    var s := w + rest;
    assert s[..|w|] == w;
    assert s[|w|..] == rest;
  }

  lemma WordsSkipSpace(s: string)
    ensures Words(" " + s) == Words(s)
  {
    assert (" " + s)[1..] == s;
  }

  /** Splitting a single-space join of words gives the words back. */
  lemma {:induction false} WordsOfJoin(ws: seq<string>)
    requires forall i :: 0 <= i < |ws| ==> IsWord(ws[i])
    ensures Words(JoinWords(ws)) == ws
  {
    if |ws| == 1 {
      WordsAfterWord(ws[0], "");
      assert ws[0] + "" == ws[0];
    } else if |ws| > 1 {
      var tail := JoinWords(ws[1..]);
      WordsOfJoin(ws[1..]);
      assert JoinWords(ws) == ws[0] + (" " + tail);
      WordsAfterWord(ws[0], " " + tail);
      WordsSkipSpace(tail);
      assert ws == [ws[0]] + ws[1..];
    }
  }

  /** Appending text to a join appends it to the last word. */
  lemma {:induction false} JoinThenAppend(ws: seq<string>, suffix: string)
    requires ws != []
    ensures JoinWords(ws) + suffix == JoinWords(ws[..|ws| - 1] + [ws[|ws| - 1] + suffix])
  {
    if |ws| > 1 {
      JoinThenAppend(ws[1..], suffix);
      var ws' := ws[..|ws| - 1] + [ws[|ws| - 1] + suffix];
      assert ws'[1..] == ws[1..][..|ws[1..]| - 1] + [ws[1..][|ws[1..]| - 1] + suffix];
    }
  }

  /** Lowering does not move word boundaries: the words of `lower(s)` are the
      lowered words of `s`. */
  lemma {:induction false} WordsOfLower(s: string)
    ensures |Words(Lower(s))| == |Words(s)|
    ensures forall i :: 0 <= i < |Words(s)| ==> Words(Lower(s))[i] == Lower(Words(s)[i])
    decreases |s|
  {
    var l := Lower(s);
    if s != [] {
      LowerSlices(s, 1);
      if IsSpace(s[0]) {
        WordsOfLower(s[1..]);
      } else {
        var n := WordLength(s);
        WordLengthOfLower(s);
        LowerSlices(s, n);
        WordsOfLower(s[n..]);
        var ws, lws := Words(s), Words(l);
        assert ws == [s[..n]] + Words(s[n..]);
        assert lws == [Lower(s[..n])] + Words(Lower(s[n..]));
        forall i | 0 <= i < |ws| ensures lws[i] == Lower(ws[i]) {
          if i > 0 {
            assert lws[i] == Words(Lower(s[n..]))[i - 1];
            assert ws[i] == Words(s[n..])[i - 1];
          }
        }
      }
    }
  }

  lemma LowerSlices(s: string, n: nat)
    requires n <= |s|
    ensures Lower(s)[..n] == Lower(s[..n]) && Lower(s)[n..] == Lower(s[n..])
  {
  }

  lemma {:induction false} WordLengthOfLower(s: string)
    ensures WordLength(Lower(s)) == WordLength(s)
    decreases |s|
  {
    if s != [] {
      assert Lower(s)[1..] == Lower(s[1..]);
      WordLengthOfLower(s[1..]);
    }
  }
}
