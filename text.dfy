/** The few Python string operations the loaders and the parameter code rely on:
    `str.isspace`, `str.strip()`, `str.split()`, `str.join`, `str.split("\n")`,
    ASCII `str.lower()` and `str(n)` for natural numbers. */
module Text {

  /** Python's `str.isspace` for one character. */
  predicate IsSpace(c: char)
  {
    || ('\t' <= c <= '\r')
    || ('\U{1c}' <= c <= '\U{1f}')
    || c == ' ' || c == '\U{85}' || c == '\U{a0}' || c == '\U{1680}'
    || ('\U{2000}' <= c <= '\U{200a}')
    || c == '\U{2028}' || c == '\U{2029}' || c == '\U{202f}' || c == '\U{205f}' || c == '\U{3000}'
  }

  predicate AllSpace(s: string)
  {
    forall i :: 0 <= i < |s| ==> IsSpace(s[i])
  }

  /** `s.lstrip()`: the longest suffix of `s` that does not start with white space. */
  function StripLeft(s: string): (r: string)
    ensures |r| <= |s| && r == s[|s| - |r|..]
    ensures AllSpace(s[..|s| - |r|])
    ensures r != [] ==> !IsSpace(r[0])
  {
    if s != [] && IsSpace(s[0]) then StripLeft(s[1..]) else s
  }

  /** `s.rstrip()`: the longest prefix of `s` that does not end with white space. */
  function StripRight(s: string): (r: string)
    ensures |r| <= |s| && r == s[..|r|]
    ensures AllSpace(s[|r|..])
    ensures r != [] ==> !IsSpace(r[|r| - 1])
  {
    if s != [] && IsSpace(s[|s| - 1]) then
      var r := StripRight(s[..|s| - 1]);
      assert s[|r|..] == s[..|s| - 1][|r|..] + [s[|s| - 1]];
      r
    else
      s
  }

  /** `s.strip()` with no argument. */
  function Strip(s: string): (r: string)
    ensures r == [] <==> AllSpace(s)
    ensures r != [] ==> !IsSpace(r[0]) && !IsSpace(r[|r| - 1])
  {
    var l := StripLeft(s);
    var r := StripRight(l);
    assert r == [] ==> AllSpace(s) by {
      if r == [] {
        forall i | 0 <= i < |s| ensures IsSpace(s[i]) {
          if i < |s| - |l| {
            assert s[i] == s[..|s| - |l|][i];
          }
        }
      }
    }
    r
  }

  /** Stripping removes only white space. */
  lemma {:induction false} StripKeepsText(s: string)
    ensures NonSpace(Strip(s)) == NonSpace(s)
  {
    StripLeftKeepsText(s);
    StripRightKeepsText(StripLeft(s));
  }

  /** `s.lstrip()` removes only white space. */
  lemma {:induction false} StripLeftKeepsText(s: string)
    ensures NonSpace(StripLeft(s)) == NonSpace(s)
  {
    var sp := s[..|s| - |StripLeft(s)|];
    assert s == sp + StripLeft(s);
    NonSpaceAppend(sp, StripLeft(s));
    NonSpaceOfSpaces(sp);
  }

  /** `s.rstrip()` removes only white space. */
  lemma {:induction false} StripRightKeepsText(s: string)
    ensures NonSpace(StripRight(s)) == NonSpace(s)
  {
    var sp := s[|StripRight(s)|..];
    assert s == StripRight(s) + sp;
    NonSpaceAppend(StripRight(s), sp);
    NonSpaceOfSpaces(sp);
  }

  /** Length of the leading run of non-space characters of `s`. */
  function WordEnd(s: string): (n: nat)
    ensures n <= |s|
    ensures forall i :: 0 <= i < n ==> !IsSpace(s[i])
    ensures n < |s| ==> IsSpace(s[n])
  {
    if s == [] || IsSpace(s[0]) then 0 else 1 + WordEnd(s[1..])
  }

  /** A non-empty run of non-space characters. */
  predicate IsWord(w: string)
  {
    w != [] && forall i :: 0 <= i < |w| ==> !IsSpace(w[i])
  }

  /** Python's `s.split()` with no argument: the maximal runs of non-space characters. */
  function Words(s: string): (ws: seq<string>)
    ensures forall k :: 0 <= k < |ws| ==> IsWord(ws[k])
    ensures ws == [] <==> AllSpace(s)
    decreases |s|
  {
    if s == [] then
      []
    else if IsSpace(s[0]) then
      var ws := Words(s[1..]);
      assert AllSpace(s) <==> AllSpace(s[1..]) by {
        assert forall i :: 0 < i < |s| ==> s[i] == s[1..][i - 1];
      }
      ws
    else
      var n := WordEnd(s);
      var rest := Words(s[n..]);
      var ws := [s[..n]] + rest;
      assert forall k :: 0 <= k < |ws| ==> IsWord(ws[k]) by {
        forall k | 0 <= k < |ws| ensures IsWord(ws[k]) {
          if k > 0 {
            assert ws[k] == rest[k - 1];
          }
        }
      }
      ws
  }

  /** The characters of `s` that are not white space, in order. */
  function NonSpace(s: string): string
  {
    if s == [] then [] else (if IsSpace(s[0]) then [] else [s[0]]) + NonSpace(s[1..])
  }

  function Concat(ws: seq<string>): string
  {
    if ws == [] then [] else ws[0] + Concat(ws[1..])
  }

  lemma {:induction false} NonSpaceAppend(a: string, b: string)
    ensures NonSpace(a + b) == NonSpace(a) + NonSpace(b)
    decreases |a|
  {
    if a != [] {
      assert (a + b)[1..] == a[1..] + b;
      NonSpaceAppend(a[1..], b);
    } else {
      assert a + b == b;
    }
  }

  lemma {:induction false} NonSpaceOfWord(s: string)
    requires forall i :: 0 <= i < |s| ==> !IsSpace(s[i])
    ensures NonSpace(s) == s
    decreases |s|
  {
    if s != [] {
      NonSpaceOfWord(s[1..]);
    }
  }

  lemma {:induction false} NonSpaceOfSpaces(s: string)
    requires AllSpace(s)
    ensures NonSpace(s) == []
    decreases |s|
  {
    if s != [] {
      NonSpaceOfSpaces(s[1..]);
    }
  }

  /** `s.split()` loses only white space: gluing the words back together gives every
      other character of `s`, in order. */
  lemma {:induction false} WordsKeepEveryNonSpaceChar(s: string)
    ensures Concat(Words(s)) == NonSpace(s)
    decreases |s|
  {
    if s != [] && IsSpace(s[0]) {
      WordsKeepEveryNonSpaceChar(s[1..]);
    } else if s != [] {
      var n := WordEnd(s);
      assert s == s[..n] + s[n..];
      NonSpaceAppend(s[..n], s[n..]);
      NonSpaceOfWord(s[..n]);
      WordsKeepEveryNonSpaceChar(s[n..]);
      var ws := Words(s);
      assert ws == [s[..n]] + Words(s[n..]);
      assert ws[1..] == Words(s[n..]);
    }
  }

  /** White space at the end of a string makes no word. */
  lemma {:induction false} WordsOfTrailingSpace(s: string, sp: string)
    requires AllSpace(sp)
    ensures Words(s + sp) == Words(s)
    decreases |s|
  {
    if s == [] {
      assert s + sp == sp;
      assert Words(sp) == [] by {
        assert AllSpace(sp);
      }
    } else if IsSpace(s[0]) {
      assert (s + sp)[1..] == s[1..] + sp;
      WordsOfTrailingSpace(s[1..], sp);
    } else {
      var n := WordEnd(s);
      assert WordEnd(s + sp) == n by {
        WordEndOfAppend(s, sp);
      }
      assert (s + sp)[..n] == s[..n];
      assert (s + sp)[n..] == s[n..] + sp;
      WordsOfTrailingSpace(s[n..], sp);
    }
  }

  /** A word run does not reach into following white space. */
  lemma {:induction false} WordEndOfAppend(s: string, sp: string)
    requires AllSpace(sp)
    ensures WordEnd(s + sp) == WordEnd(s)
    decreases |s|
  {
    if s != [] && !IsSpace(s[0]) {
      assert (s + sp)[1..] == s[1..] + sp;
      WordEndOfAppend(s[1..], sp);
    } else if s == [] {
      assert s + sp == sp;
    }
  }

  /** `s.strip().split() == s.split()`. */
  lemma {:induction false} WordsOfStrip(s: string)
    ensures Words(Strip(s)) == Words(s)
  {
    WordsOfStripLeft(s);
    WordsOfStripRight(StripLeft(s));
  }

  /** `s.lstrip().split() == s.split()`. */
  lemma {:induction false} WordsOfStripLeft(s: string)
    ensures Words(StripLeft(s)) == Words(s)
  {
    var r := StripLeft(s);
    var k := |s| - |r|;
    assert AllSpace(s[..k]) && s[k..] == r;
    WordsOfLeadingSpace(s, k);
  }

  /** `s.rstrip().split() == s.split()`. */
  lemma {:induction false} WordsOfStripRight(s: string)
    ensures Words(StripRight(s)) == Words(s)
  {
    var r := StripRight(s);
    assert s == r + s[|r|..];
    WordsOfTrailingSpace(r, s[|r|..]);
  }

  /** White space at the start of a string makes no word. */
  lemma {:induction false} WordsOfLeadingSpace(s: string, k: nat)
    requires k <= |s| && AllSpace(s[..k])
    ensures Words(s[k..]) == Words(s)
    decreases k
  {
    if k > 0 {
      assert s[0] == s[..k][0];
      var t := s[1..][..k - 1];
      assert AllSpace(t) by {
        forall i | 0 <= i < |t| ensures IsSpace(t[i]) {
          assert t[i] == s[..k][i + 1];
        }
      }
      assert s[1..][k - 1..] == s[k..];
      WordsOfLeadingSpace(s[1..], k - 1);
    } else {
      assert s[k..] == s;
    }
  }

  /** `sep.join(ws)`. */
  function Join(sep: string, ws: seq<string>): (r: string)
    ensures ws != [] ==> ws[0] <= r
    ensures |ws| > 1 ==> ws[0] + sep <= r
  {
    if ws == [] then "" else if |ws| == 1 then ws[0] else ws[0] + sep + Join(sep, ws[1..])
  }

  /** With non-empty pieces, the join is empty exactly when there is nothing to join. */
  lemma JoinEmptyIff(sep: string, ws: seq<string>)
    requires forall k :: 0 <= k < |ws| ==> ws[k] != []
    ensures Join(sep, ws) == [] <==> ws == []
  {
    if ws != [] {
      assert ws[0] <= Join(sep, ws);
    }
  }

  /** Index of the first `c` in `s`, or `|s|` when there is none. */
  function IndexOf(s: string, c: char): (n: nat)
    ensures n <= |s|
    ensures forall i :: 0 <= i < n ==> s[i] != c
    ensures n < |s| ==> s[n] == c
  {
    if s == [] then 0 else if s[0] == c then 0 else 1 + IndexOf(s[1..], c)
  }

  /** Python's `s.split(c)` for a one-character separator. */
  function SplitOn(s: string, c: char): (ps: seq<string>)
    ensures ps != []
    decreases |s|
  {
    var n := IndexOf(s, c);
    if n == |s| then [s] else [s[..n]] + SplitOn(s[n + 1..], c)
  }

  /** `c not in s`. */
  predicate Lacks(s: string, c: char)
  {
    forall i :: 0 <= i < |s| ==> s[i] != c
  }

  /** The first `c` of `a + [c] + b` is the one after `a` when `a` has none. */
  lemma {:induction false} IndexOfAfter(a: string, c: char, b: string)
    requires Lacks(a, c)
    ensures IndexOf(a + [c] + b, c) == |a|
    decreases |a|
  {
    if a != [] {
      assert (a + [c] + b)[1..] == a[1..] + [c] + b;
      IndexOfAfter(a[1..], c, b);
    }
  }

  /** Splitting a `c`-joined list of lines that contain no `c` gives the lines back. */
  lemma {:induction false} SplitJoin(ls: seq<string>, c: char)
    requires ls != []
    requires forall k :: 0 <= k < |ls| ==> Lacks(ls[k], c)
    ensures SplitOn(Join([c], ls), c) == ls
    decreases |ls|
  {
    var s := Join([c], ls);
    if |ls| == 1 {
      assert Lacks(ls[0], c);
      assert IndexOf(s, c) == |s|;
    } else {
      var rest := Join([c], ls[1..]);
      assert s == ls[0] + [c] + rest;
      assert Lacks(ls[0], c);
      IndexOfAfter(ls[0], c, rest);
      assert s[..|ls[0]|] == ls[0] && s[|ls[0]| + 1..] == rest;
      assert SplitOn(s, c) == [ls[0]] + SplitOn(rest, c);
      SplitJoin(ls[1..], c);
      assert ls == [ls[0]] + ls[1..];
    }
  }

  function LowerChar(c: char): char
  {
    if 'A' <= c <= 'Z' then (c as int + 32) as char else c
  }

  /** `s.lower()`, restricted to the ASCII letters. */
  function Lower(s: string): (r: string)
    ensures |r| == |s|
    ensures forall i :: 0 <= i < |s| ==> r[i] == LowerChar(s[i])
  {
    seq(|s|, i requires 0 <= i < |s| => LowerChar(s[i]))
  }

  /** A lower-cased string has no upper-case ASCII letter left, so lowering it again
      changes nothing. */
  lemma LowerIdempotent(s: string)
    ensures forall i :: 0 <= i < |s| ==> !('A' <= Lower(s)[i] <= 'Z')
    ensures Lower(Lower(s)) == Lower(s)
  {
  }

  function DigitChar(d: nat): (c: char)
    requires d < 10
    ensures '0' <= c <= '9'
  {
    (48 + d) as char
  }

  predicate AllDigits(s: string)
  {
    forall i :: 0 <= i < |s| ==> '0' <= s[i] <= '9'
  }

  /** Python's `str(n)` for a natural number: its decimal digits, most significant first. */
  function NatStr(n: nat): (r: string)
    ensures r != [] && AllDigits(r)
    ensures n >= 10 ==> |r| >= 2
  {
    if n < 10 then [DigitChar(n)] else NatStr(n / 10) + [DigitChar(n % 10)]
  }

  /** Distinct numbers print differently. */
  lemma {:induction false} NatStrInjective(a: nat, b: nat)
    requires NatStr(a) == NatStr(b)
    ensures a == b
  {
    var s := NatStr(a);
    if a >= 10 && b >= 10 {
      assert s[|s| - 1] == DigitChar(a % 10) == DigitChar(b % 10);
      assert NatStr(a / 10) == s[..|s| - 1] == NatStr(b / 10);
      NatStrInjective(a / 10, b / 10);
    } else if a < 10 && b < 10 {
      assert s[0] == DigitChar(a) == DigitChar(b);
    }
  }
}
