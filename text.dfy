/**
 * The string operations of Python 2 that the purchases parser relies on
 * (`in`, `split`, `join`, `replace`, `strip`, `int`, `*` on strings),
 * restated over `seq<char>`, with the facts about them that the rest of
 * the model needs.
 */
module Text {
  import opened Wrappers

  predicate IsDigit(c: char) {
    '0' <= c <= '9'
  }

  predicate AllDigits(s: string) {
    forall i :: 0 <= i < |s| ==> IsDigit(s[i])
  }

  /** Whitespace as Python 2's `str.split()` and `int()` see it in the C locale. */
  predicate IsSpace(c: char) {
    c == ' ' || c == '\t' || c == '\n' || c == '\r' || c == '\U{000B}' || c == '\U{000C}'
  }

  /** Python's `c * n`: n copies of c, and nothing when n is zero or negative. */
  function Repeat(c: char, n: int): (r: string)
    ensures |r| == if n <= 0 then 0 else n
    ensures forall i :: 0 <= i < |r| ==> r[i] == c
    decreases n
  {
    if n <= 0 then "" else [c] + Repeat(c, n - 1)
  }

  // ---------------------------------------------------------------------
  // Substring search

  predicate OccursAt(s: string, sub: string, i: int) {
    0 <= i && i + |sub| <= |s| && s[i..i + |sub|] == sub
  }

  /** Python's `sub in s`. */
  function Contains(s: string, sub: string): bool
    decreases |s|
  {
    if |sub| > |s| then false
    else if s[..|sub|] == sub then true
    else Contains(s[1..], sub)
  }

  /** `Contains` finds an occurrence exactly when there is one. */
  lemma {:induction false} ContainsIff(s: string, sub: string)
    ensures Contains(s, sub) <==> exists i :: OccursAt(s, sub, i)
    decreases |s|
  {
    if |sub| > |s| {
    } else if s[..|sub|] == sub {
      assert OccursAt(s, sub, 0);
    } else {
      ContainsIff(s[1..], sub);
      if Contains(s[1..], sub) {
        var i :| OccursAt(s[1..], sub, i);
        assert s[i + 1..i + 1 + |sub|] == s[1..][i..i + |sub|];
        assert OccursAt(s, sub, i + 1);
      }
      if exists i :: OccursAt(s, sub, i) {
        var i :| OccursAt(s, sub, i);
        assert i != 0;
        assert s[1..][i - 1..i - 1 + |sub|] == s[i..i + |sub|];
        assert OccursAt(s[1..], sub, i - 1);
      }
    }
  }

  lemma ContainsAt(s: string, sub: string, i: int)
    requires OccursAt(s, sub, i)
    ensures Contains(s, sub)
  {
    ContainsIff(s, sub);
  }

  lemma NotContainsAt(s: string, sub: string, i: int)
    requires !Contains(s, sub)
    ensures !OccursAt(s, sub, i)
  {
    ContainsIff(s, sub);
  }

  // ---------------------------------------------------------------------
  // split(sep) and join

  /** Python's `s.split(sep)` for a one-character separator: every piece is kept, empty or not. */
  function SplitOn(s: string, sep: char): (pieces: seq<string>)
    ensures |pieces| >= 1
    decreases |s|
  {
    if |s| == 0 then [""]
    else
      var rest := SplitOn(s[1..], sep);
      if s[0] == sep then [""] + rest
      else [[s[0]] + rest[0]] + rest[1..]
  }

  /** Python's `sep.join(pieces)`. */
  function JoinWith(pieces: seq<string>, sep: string): string
    decreases |pieces|
  {
    if |pieces| == 0 then ""
    else if |pieces| == 1 then pieces[0]
    else pieces[0] + sep + JoinWith(pieces[1..], sep)
  }

  /** Number of occurrences of c in s. */
  function Count(s: string, c: char): nat
    decreases |s|
  {
    if |s| == 0 then 0 else (if s[0] == c then 1 else 0) + Count(s[1..], c)
  }

  lemma {:induction false} CountZero(s: string, c: char)
    ensures Count(s, c) == 0 <==> c !in s
    decreases |s|
  {
    if |s| > 0 {
      CountZero(s[1..], c);
      assert s == [s[0]] + s[1..];
    }
  }

  /**
   * Splitting cuts s at every separator and nowhere else: joining the
   * pieces back gives s, there is one piece more than separators, and no
   * piece holds the separator.
   */
  lemma SplitOnShape(s: string, sep: char)
    ensures JoinWith(SplitOn(s, sep), [sep]) == s
    ensures |SplitOn(s, sep)| == Count(s, sep) + 1
    ensures forall k, i :: 0 <= k < |SplitOn(s, sep)| && 0 <= i < |SplitOn(s, sep)[k]| ==> SplitOn(s, sep)[k][i] != sep
  {
    SplitOnJoin(s, sep);
    SplitOnCount(s, sep);
    SplitOnPieces(s, sep);
  }

  lemma {:induction false} SplitOnJoin(s: string, sep: char)
    ensures JoinWith(SplitOn(s, sep), [sep]) == s
    decreases |s|
  {
    if |s| > 0 {
      var rest := SplitOn(s[1..], sep);
      SplitOnJoin(s[1..], sep);
      var pieces := SplitOn(s, sep);
      assert s == [s[0]] + s[1..];
      if s[0] == sep {
        assert pieces == [""] + rest;
        assert pieces[1..] == rest;
        assert JoinWith(pieces, [sep]) == "" + [sep] + JoinWith(rest, [sep]);
      } else {
        assert pieces == [[s[0]] + rest[0]] + rest[1..];
        if |rest| == 1 {
          assert JoinWith(pieces, [sep]) == [s[0]] + rest[0];
        } else {
          assert pieces[1..] == rest[1..];
          assert JoinWith(pieces, [sep]) == [s[0]] + rest[0] + [sep] + JoinWith(rest[1..], [sep]);
          assert JoinWith(rest, [sep]) == rest[0] + [sep] + JoinWith(rest[1..], [sep]);
        }
      }
    }
  }

  lemma {:induction false} SplitOnCount(s: string, sep: char)
    ensures |SplitOn(s, sep)| == Count(s, sep) + 1
    decreases |s|
  {
    if |s| > 0 {
      SplitOnCount(s[1..], sep);
    }
  }

  lemma {:induction false} SplitOnPieces(s: string, sep: char)
    ensures forall k, i :: 0 <= k < |SplitOn(s, sep)| && 0 <= i < |SplitOn(s, sep)[k]| ==> SplitOn(s, sep)[k][i] != sep
    decreases |s|
  {
    if |s| > 0 {
      var rest := SplitOn(s[1..], sep);
      SplitOnPieces(s[1..], sep);
      var pieces := SplitOn(s, sep);
      if s[0] == sep {
        assert pieces == [""] + rest;
        forall k, i | 0 <= k < |pieces| && 0 <= i < |pieces[k]|
          ensures pieces[k][i] != sep
        {
          assert pieces[k] == rest[k - 1];
        }
      } else {
        assert pieces == [[s[0]] + rest[0]] + rest[1..];
        forall k, i | 0 <= k < |pieces| && 0 <= i < |pieces[k]|
          ensures pieces[k][i] != sep
        {
          if k == 0 && i > 0 {
            assert pieces[0][i] == rest[0][i - 1];
          } else if k > 0 {
            assert pieces[k] == rest[k];
          }
        }
      }
    }
  }

  /** Splitting `a + [sep] + b`, where a holds no separator, starts with the piece a. */
  lemma {:induction false} SplitOnAfterPiece(a: string, sep: char, b: string)
    requires forall i :: 0 <= i < |a| ==> a[i] != sep
    ensures SplitOn(a + [sep] + b, sep) == [a] + SplitOn(b, sep)
    decreases |a|
  {
    if |a| == 0 {
      assert a + [sep] + b == [sep] + b;
      assert ([sep] + b)[1..] == b;
    } else {
      var s := a + [sep] + b;
      assert s[1..] == a[1..] + [sep] + b;
      SplitOnAfterPiece(a[1..], sep, b);
      assert [a[0]] + a[1..] == a;
    }
  }

  /** Splitting a text without the separator gives that text as the only piece. */
  lemma {:induction false} SplitOnNoSeparator(a: string, sep: char)
    requires forall i :: 0 <= i < |a| ==> a[i] != sep
    ensures SplitOn(a, sep) == [a]
    decreases |a|
  {
    if |a| > 0 {
      SplitOnNoSeparator(a[1..], sep);
      assert [a[0]] + a[1..] == a;
    }
  }

  // ---------------------------------------------------------------------
  // split() on whitespace runs, and ' '.join

  /** The longest prefix of s without whitespace. */
  function NonSpacePrefix(s: string): (w: string)
    ensures |w| <= |s| && w == s[..|w|]
    ensures forall i :: 0 <= i < |w| ==> !IsSpace(w[i])
    ensures |w| < |s| ==> IsSpace(s[|w|])
    ensures |s| > 0 && !IsSpace(s[0]) ==> |w| > 0
    decreases |s|
  {
    if |s| == 0 || IsSpace(s[0]) then "" else [s[0]] + NonSpacePrefix(s[1..])
  }

  /** Python 2's `s.split()`: the maximal runs of non-whitespace characters, in order. */
  function Words(s: string): (ws: seq<string>)
    ensures forall k :: 0 <= k < |ws| ==> |ws[k]| > 0
    ensures forall k, i :: 0 <= k < |ws| && 0 <= i < |ws[k]| ==> !IsSpace(ws[k][i])
    decreases |s|
  {
    if |s| == 0 then []
    else if IsSpace(s[0]) then Words(s[1..])
    else
      var w := NonSpacePrefix(s);
      [w] + Words(s[|w|..])
  }

  /** `' '.join(s.split())`: whitespace runs become one space, and the ends are trimmed. */
  function Collapse(s: string): string {
    JoinWith(Words(s), " ")
  }

  /** The characters of s that are not whitespace, in order. */
  function NonSpace(s: string): string
    decreases |s|
  {
    if |s| == 0 then "" else (if IsSpace(s[0]) then "" else [s[0]]) + NonSpace(s[1..])
  }

  function Flatten(ws: seq<string>): string
    decreases |ws|
  {
    if |ws| == 0 then "" else ws[0] + Flatten(ws[1..])
  }

  /**
   * The only whitespace r holds is single ' ' characters, each strictly
   * between two characters that are not whitespace: no leading or
   * trailing blank, no run of two.
   */
  predicate Collapsed(r: string) {
    forall i :: 0 <= i < |r| && IsSpace(r[i]) ==>
      r[i] == ' ' && 0 < i < |r| - 1 && !IsSpace(r[i - 1]) && !IsSpace(r[i + 1])
  }

  lemma {:induction false} NonSpaceAppend(a: string, b: string)
    ensures NonSpace(a + b) == NonSpace(a) + NonSpace(b)
    decreases |a|
  {
    if |a| > 0 {
      assert (a + b)[1..] == a[1..] + b;
      NonSpaceAppend(a[1..], b);
    } else {
      assert a + b == b;
    }
  }

  lemma {:induction false} NonSpaceOfWord(w: string)
    requires forall i :: 0 <= i < |w| ==> !IsSpace(w[i])
    ensures NonSpace(w) == w
    decreases |w|
  {
    if |w| > 0 {
      NonSpaceOfWord(w[1..]);
      assert [w[0]] + w[1..] == w;
    }
  }

  /** `split()` keeps every non-whitespace character, in order. */
  lemma {:induction false} WordsKeepText(s: string)
    ensures Flatten(Words(s)) == NonSpace(s)
    decreases |s|
  {
    if |s| > 0 {
      if IsSpace(s[0]) {
        WordsKeepText(s[1..]);
      } else {
        var w := NonSpacePrefix(s);
        var rest := s[|w|..];
        assert s == w + rest;
        WordsKeepText(rest);
        NonSpaceAppend(w, rest);
        NonSpaceOfWord(w);
        assert Words(s) == [w] + Words(rest);
        assert ([w] + Words(rest))[1..] == Words(rest);
      }
    }
  }

  /** Gluing a word to a collapsed text with one space keeps it collapsed. */
  lemma CollapsedGlue(w: string, t: string)
    requires |w| > 0 && forall i :: 0 <= i < |w| ==> !IsSpace(w[i])
    requires |t| > 0 && Collapsed(t) && !IsSpace(t[0]) && !IsSpace(t[|t| - 1])
    ensures Collapsed(w + " " + t)
  {
    var r := w + " " + t;
    assert forall i :: 0 <= i < |w| ==> r[i] == w[i];
    assert forall j :: 0 <= j < |t| ==> r[|w| + 1 + j] == t[j];
    forall i | 0 <= i < |r| && IsSpace(r[i])
      ensures r[i] == ' ' && 0 < i < |r| - 1 && !IsSpace(r[i - 1]) && !IsSpace(r[i + 1])
    {
      if i == |w| {
        assert r[i - 1] == w[|w| - 1];
        assert r[i + 1] == t[0];
      } else if i > |w| {
        var j := i - |w| - 1;
        assert r[i] == t[j];
        assert r[i - 1] == t[j - 1];
        assert r[i + 1] == t[j + 1];
      }
    }
  }

  /** Joining non-empty words without whitespace by single spaces gives a collapsed text. */
  lemma {:induction false} JoinedWordsCollapsed(ws: seq<string>)
    requires forall k :: 0 <= k < |ws| ==> |ws[k]| > 0
    requires forall k, i :: 0 <= k < |ws| && 0 <= i < |ws[k]| ==> !IsSpace(ws[k][i])
    ensures Collapsed(JoinWith(ws, " "))
    ensures |ws| > 0 ==> |JoinWith(ws, " ")| > 0
    ensures |ws| > 0 ==> !IsSpace(JoinWith(ws, " ")[0]) && !IsSpace(JoinWith(ws, " ")[|JoinWith(ws, " ")| - 1])
    decreases |ws|
  {
    if |ws| > 1 {
      var w := ws[0];
      var t := JoinWith(ws[1..], " ");
      JoinedWordsCollapsed(ws[1..]);
      var r := JoinWith(ws, " ");
      assert r == w + " " + t;
      CollapsedGlue(w, t);
      assert r[0] == w[0];
      assert r[|r| - 1] == t[|t| - 1];
    }
  }

  /** Joining words without whitespace by single spaces keeps exactly their characters. */
  lemma {:induction false} JoinedWordsText(ws: seq<string>)
    requires forall k, i :: 0 <= k < |ws| && 0 <= i < |ws[k]| ==> !IsSpace(ws[k][i])
    ensures NonSpace(JoinWith(ws, " ")) == Flatten(ws)
    decreases |ws|
  {
    if |ws| == 1 {
      NonSpaceOfWord(ws[0]);
      assert Flatten(ws) == ws[0] + Flatten(ws[1..]);
    } else if |ws| > 1 {
      var w := ws[0];
      var t := JoinWith(ws[1..], " ");
      JoinedWordsText(ws[1..]);
      assert JoinWith(ws, " ") == w + (" " + t);
      NonSpaceAppend(w, " " + t);
      NonSpaceAppend(" ", t);
      NonSpaceOfWord(w);
      assert NonSpace(" ") == "";
    }
  }

  /** The word at the start of a text ends at the first blank or at the end. */
  lemma {:induction false} NonSpacePrefixOfWord(w: string, x: string)
    requires forall i :: 0 <= i < |w| ==> !IsSpace(w[i])
    requires |x| == 0 || IsSpace(x[0])
    ensures NonSpacePrefix(w + x) == w
    decreases |w|
  {
    if |w| == 0 {
      assert w + x == x;
    } else {
      assert (w + x)[1..] == w[1..] + x;
      NonSpacePrefixOfWord(w[1..], x);
      assert [w[0]] + w[1..] == w;
    }
  }

  /** A word followed by a blank or by nothing is the first word of the text. */
  lemma WordsOfWordThen(w: string, x: string)
    requires |w| > 0 && forall i :: 0 <= i < |w| ==> !IsSpace(w[i])
    requires |x| == 0 || IsSpace(x[0])
    ensures Words(w + x) == [w] + Words(x)
  {
    NonSpacePrefixOfWord(w, x);
    assert (w + x)[0] == w[0];
    assert (w + x)[|w|..] == x;
  }

  /** Splitting words joined by single spaces gives back the words. */
  lemma {:induction false} WordsOfJoin(ws: seq<string>)
    requires forall k :: 0 <= k < |ws| ==> |ws[k]| > 0
    requires forall k, i :: 0 <= k < |ws| && 0 <= i < |ws[k]| ==> !IsSpace(ws[k][i])
    ensures Words(JoinWith(ws, " ")) == ws
    decreases |ws|
  {
    if |ws| == 1 {
      WordsOfWordThen(ws[0], "");
      assert ws[0] + "" == ws[0];
    } else if |ws| > 1 {
      var t := JoinWith(ws[1..], " ");
      WordsOfJoin(ws[1..]);
      assert JoinWith(ws, " ") == ws[0] + (" " + t);
      WordsOfWordThen(ws[0], " " + t);
      assert (" " + t)[1..] == t;
      assert Words(" " + t) == Words(t);
      assert [ws[0]] + ws[1..] == ws;
    }
  }

  /**
   * `' '.join(s.split())` leaves a collapsed text (single inner spaces,
   * trimmed ends) with the same words as s, so it keeps every other
   * character of s, in order, and breaks words exactly where s does.
   */
  lemma CollapseMeaning(s: string)
    ensures Collapsed(Collapse(s))
    ensures Words(Collapse(s)) == Words(s)
    ensures NonSpace(Collapse(s)) == NonSpace(s)
  {
    JoinedWordsCollapsed(Words(s));
    JoinedWordsText(Words(s));
    WordsKeepText(s);
    WordsOfJoin(Words(s));
  }

  // ---------------------------------------------------------------------
  // replace

  /** Python's `s.replace(pat, rep)`: leftmost occurrences, non-overlapping, in one pass. */
  function ReplaceAll(s: string, pat: string, rep: string): string
    requires |pat| > 0
    decreases |s|
  {
    if |s| < |pat| then s
    else if s[..|pat|] == pat then rep + ReplaceAll(s[|pat|..], pat, rep)
    else [s[0]] + ReplaceAll(s[1..], pat, rep)
  }

  /** A text without the pattern is left as it is, and deleting the pattern never lengthens a text. */
  lemma {:induction false} ReplaceAllBounds(s: string, pat: string)
    requires |pat| > 0
    ensures |ReplaceAll(s, pat, "")| <= |s|
    ensures !Contains(s, pat) ==> ReplaceAll(s, pat, "") == s
    ensures Contains(s, pat) ==> |ReplaceAll(s, pat, "")| < |s|
    decreases |s|
  {
    if |s| >= |pat| {
      if s[..|pat|] == pat {
        ReplaceAllBounds(s[|pat|..], pat);
      } else {
        ReplaceAllBounds(s[1..], pat);
        assert [s[0]] + s[1..] == s;
      }
    }
  }

  /**
   * The replacement starts at the first occurrence of the pattern (the one
   * at p, when no occurrence lies inside the text before p + |pat| - 1):
   * the text before it is kept, the occurrence becomes rep, and the rest of
   * the text is replaced in the same way.
   */
  lemma {:induction false} ReplaceAllFirst(s: string, pat: string, rep: string, p: nat)
    requires |pat| > 0 && OccursAt(s, pat, p)
    requires !Contains(s[..p + |pat| - 1], pat)
    ensures ReplaceAll(s, pat, rep) == s[..p] + rep + ReplaceAll(s[p + |pat|..], pat, rep)
    decreases p, 1
  {
    if p == 0 {
      ReplaceAllAtStart(s, pat, rep);
    } else {
      ReplaceAllFirstLater(s, pat, rep, p);
    }
  }

  /** The case of an occurrence after the first character: the first character is kept, and the rest is s[1..]'s case. */
  lemma {:induction false} ReplaceAllFirstLater(s: string, pat: string, rep: string, p: nat)
    requires |pat| > 0 && OccursAt(s, pat, p) && p > 0
    requires !Contains(s[..p + |pat| - 1], pat)
    ensures ReplaceAll(s, pat, rep) == s[..p] + rep + ReplaceAll(s[p + |pat|..], pat, rep)
    decreases p, 0
  {
    NoEarlierAtStart(s, pat, p);
    OccursAtTail(s, pat, p);
    NoEarlierInTail(s, pat, p);
    ReplaceAllFirst(s[1..], pat, rep, p - 1);
    ReplaceAllAfterHead(s, pat, rep, p);
  }

  /** The replacement of s[1..], from its first occurrence on, puts back the character s[0] in front. */
  lemma ReplaceAllAfterHead(s: string, pat: string, rep: string, p: nat)
    requires |pat| > 0 && 0 < p && p + |pat| <= |s| && s[..|pat|] != pat
    requires ReplaceAll(s[1..], pat, rep) == s[1..][..p - 1] + rep + ReplaceAll(s[1..][p - 1 + |pat|..], pat, rep)
    ensures ReplaceAll(s, pat, rep) == s[..p] + rep + ReplaceAll(s[p + |pat|..], pat, rep)
  {
    ReplaceAllSkip(s, pat, rep);
    SliceAfterHead(s, p, p + |pat|);
    ConsAssoc(s[0], s[1..][..p - 1], rep, ReplaceAll(s[p + |pat|..], pat, rep));
  }

  lemma ConsAssoc(c: char, a: string, b: string, r: string)
    ensures [c] + (a + b + r) == [c] + a + b + r
  {
  }

  lemma OccursAtTail(s: string, pat: string, p: nat)
    requires |pat| > 0 && OccursAt(s, pat, p) && p > 0
    ensures OccursAt(s[1..], pat, p - 1)
  {
    assert s[1..][p - 1..p - 1 + |pat|] == s[p..p + |pat|];
  }

  lemma NoEarlierInTail(s: string, pat: string, p: nat)
    requires |pat| > 0 && p + |pat| <= |s| && p > 0
    requires !Contains(s[..p + |pat| - 1], pat)
    ensures !Contains(s[1..][..p - 1 + |pat| - 1], pat)
  {
    var x := s[..p + |pat| - 1];
    assert x[1..] == s[1..][..p - 1 + |pat| - 1];
  }

  lemma NoEarlierAtStart(s: string, pat: string, p: nat)
    requires |pat| > 0 && p + |pat| <= |s| && p > 0
    requires !Contains(s[..p + |pat| - 1], pat)
    ensures s[..|pat|] != pat
  {
    var x := s[..p + |pat| - 1];
    assert x[..|pat|] == s[..|pat|];
  }

  /** A text that starts with the pattern has its start replaced. */
  lemma ReplaceAllAtStart(s: string, pat: string, rep: string)
    requires |pat| > 0 && |s| >= |pat| && s[..|pat|] == pat
    ensures ReplaceAll(s, pat, rep) == s[..0] + rep + ReplaceAll(s[0 + |pat|..], pat, rep)
  {
    assert s[..0] + rep == rep;
  }

  /** A text that does not start with the pattern keeps its first character. */
  lemma ReplaceAllSkip(s: string, pat: string, rep: string)
    requires |pat| > 0 && |s| >= |pat| && s[..|pat|] != pat
    ensures ReplaceAll(s, pat, rep) == [s[0]] + ReplaceAll(s[1..], pat, rep)
  {
  }

  /** Slices of s[1..] are those of s one place later. */
  lemma SliceAfterHead(s: string, p: nat, e: nat)
    requires 0 < p <= e <= |s|
    ensures s[1..][e - 1..] == s[e..]
    ensures [s[0]] + s[1..][..p - 1] == s[..p]
  {
  }

  /** Without an occurrence of the pattern the text is left as it is. */
  lemma {:induction false} ReplaceAllAbsent(s: string, pat: string, rep: string)
    requires |pat| > 0 && !Contains(s, pat)
    ensures ReplaceAll(s, pat, rep) == s
    decreases |s|
  {
    if |s| >= |pat| {
      assert s[..|pat|] != pat;
      ReplaceAllAbsent(s[1..], pat, rep);
      assert [s[0]] + s[1..] == s;
    }
  }

  /** Python's `s.replace(a, b)` for one-character a and b. */
  function ReplaceChar(s: string, a: char, b: char): (r: string)
    ensures |r| == |s|
    ensures forall i :: 0 <= i < |s| ==> r[i] == if s[i] == a then b else s[i]
    decreases |s|
  {
    if |s| == 0 then "" else [if s[0] == a then b else s[0]] + ReplaceChar(s[1..], a, b)
  }

  /** Python's `s.replace(c, '')`. */
  function RemoveChar(s: string, c: char): (r: string)
    ensures forall i :: 0 <= i < |r| ==> r[i] != c
    ensures |r| == |s| - Count(s, c)
    decreases |s|
  {
    if |s| == 0 then "" else (if s[0] == c then "" else [s[0]]) + RemoveChar(s[1..], c)
  }

  /**
   * Removing c works character by character: c itself disappears, any
   * other character stays, and the removal of a concatenation is the
   * concatenation of the removals, so every other character is kept in
   * order.
   */
  lemma RemoveCharMeaning(a: string, b: string, x: char, c: char)
    ensures RemoveChar([x], c) == if x == c then "" else [x]
    ensures RemoveChar(a + b, c) == RemoveChar(a, c) + RemoveChar(b, c)
  {
    RemoveCharAppend(a, b, c);
  }

  lemma {:induction false} RemoveCharAppend(a: string, b: string, c: char)
    ensures RemoveChar(a + b, c) == RemoveChar(a, c) + RemoveChar(b, c)
    decreases |a|
  {
    if |a| > 0 {
      assert (a + b)[1..] == a[1..] + b;
      RemoveCharAppend(a[1..], b, c);
    } else {
      assert a + b == b;
    }
  }

  lemma {:induction false} RemoveCharAbsent(a: string, c: char)
    requires forall i :: 0 <= i < |a| ==> a[i] != c
    ensures RemoveChar(a, c) == a
    decreases |a|
  {
    if |a| > 0 {
      RemoveCharAbsent(a[1..], c);
      assert [a[0]] + a[1..] == a;
    }
  }

  // ---------------------------------------------------------------------
  // Decimal digits, strip and int()

  function DigitValue(c: char): nat
    requires IsDigit(c)
  {
    c as int - '0' as int
  }

  /** The number a string of decimal digits denotes (0 for the empty string). */
  function DigitsValue(s: string): nat
    requires AllDigits(s)
    decreases |s|
  {
    if |s| == 0 then 0 else DigitsValue(s[..|s| - 1]) * 10 + DigitValue(s[|s| - 1])
  }

  function Pow10(n: nat): nat
    decreases n
  {
    if n == 0 then 1 else 10 * Pow10(n - 1)
  }

  /** n written in exactly `width` decimal digits, keeping the lowest ones (`%0<width>d` when n fits). */
  function DigitsOf(n: nat, width: nat): (r: string)
    ensures |r| == width && AllDigits(r)
    decreases width
  {
    if width == 0 then "" else DigitsOf(n / 10, width - 1) + [('0' as int + n % 10) as char]
  }

  /** Writing a number that fits in `width` digits and reading it back gives the number. */
  lemma {:induction false} DigitsOfValue(n: nat, width: nat)
    requires n < Pow10(width)
    ensures DigitsValue(DigitsOf(n, width)) == n
    decreases width
  {
    if width > 0 {
      var r := DigitsOf(n, width);
      DigitsOfValue(n / 10, width - 1);
      assert r[..|r| - 1] == DigitsOf(n / 10, width - 1);
      assert DigitValue(r[|r| - 1]) == n % 10;
    }
  }

  /** A digit string denotes zero exactly when every digit is '0'. */
  lemma {:induction false} DigitsValueZero(s: string)
    requires AllDigits(s)
    ensures DigitsValue(s) == 0 <==> forall i :: 0 <= i < |s| ==> s[i] == '0'
    decreases |s|
  {
    if |s| > 0 {
      var p := s[..|s| - 1];
      DigitsValueZero(p);
      if DigitsValue(s) == 0 {
        forall i | 0 <= i < |s| ensures s[i] == '0' {
          if i < |s| - 1 {
            assert s[i] == p[i];
          }
        }
      }
      if forall i :: 0 <= i < |s| ==> s[i] == '0' {
        assert forall i :: 0 <= i < |p| ==> p[i] == s[i];
      }
    }
  }

  /** Leading zeros do not change the number a digit string denotes. */
  lemma {:induction false} DigitsValueLeadingZeros(z: string, x: string)
    requires AllDigits(x) && forall i :: 0 <= i < |z| ==> z[i] == '0'
    ensures AllDigits(z + x) && DigitsValue(z + x) == DigitsValue(x)
    decreases |x|
  {
    if |x| == 0 {
      assert z + x == z;
      DigitsValueZero(z);
    } else {
      var zx := z + x;
      assert zx[..|zx| - 1] == z + x[..|x| - 1];
      DigitsValueLeadingZeros(z, x[..|x| - 1]);
    }
  }

  lemma ShiftDigit(x: int, p: int, y: int, d: int)
    ensures (x * p + y) * 10 + d == x * (10 * p) + (y * 10 + d)
  {
  }

  /** The digits of a + b denote a's number shifted by |b| places plus b's number. */
  lemma {:induction false} DigitsValueAppend(a: string, b: string)
    requires AllDigits(a) && AllDigits(b)
    ensures AllDigits(a + b) && DigitsValue(a + b) == DigitsValue(a) * Pow10(|b|) + DigitsValue(b)
    decreases |b|
  {
    if |b| == 0 {
      assert a + b == a;
    } else {
      var ab, b' := a + b, b[..|b| - 1];
      assert ab[..|ab| - 1] == a + b';
      assert ab[|ab| - 1] == b[|b| - 1];
      DigitsValueAppend(a, b');
      var x: int, p: int, y: int, d: int := DigitsValue(a), Pow10(|b'|), DigitsValue(b'), DigitValue(b[|b| - 1]);
      assert Pow10(|b|) == 10 * p;
      assert DigitsValue(b) == y * 10 + d;
      assert DigitsValue(ab) == (x * p + y) * 10 + d;
      ShiftDigit(x, p, y, d);
    }
  }

  /** A string of n digits denotes a number below 10^n. */
  lemma {:induction false} DigitsValueBound(s: string)
    requires AllDigits(s)
    ensures DigitsValue(s) < Pow10(|s|)
    decreases |s|
  {
    if |s| > 0 {
      DigitsValueBound(s[..|s| - 1]);
    }
  }

  /** The non-whitespace characters of s are exactly those kept by NonSpace. */
  lemma {:induction false} NonSpaceMembers(s: string, c: char)
    ensures c in NonSpace(s) <==> c in s && !IsSpace(c)
    decreases |s|
  {
    if |s| > 0 {
      NonSpaceMembers(s[1..], c);
      assert s == [s[0]] + s[1..];
    }
  }

  /**
   * The first piece of `s.split(c)` is the longest prefix of s without c;
   * when a separator follows it, the other pieces are those of the text
   * after that separator.
   */
  lemma FirstPiece(s: string, c: char)
    ensures var p := SplitOn(s, c)[0];
      |p| <= |s| && p == s[..|p|] && (forall i :: 0 <= i < |p| ==> p[i] != c) &&
      (|p| < |s| ==> s[|p|] == c && SplitOn(s, c) == [p] + SplitOn(s[|p| + 1..], c)) &&
      (|p| == |s| ==> SplitOn(s, c) == [s])
  {
    var p := SplitOn(s, c)[0];
    SplitOnShape(s, c);
    FirstPieceRec(s, c);
    if |p| < |s| {
      assert s == p + [c] + s[|p| + 1..];
      SplitOnAfterPiece(p, c, s[|p| + 1..]);
    } else {
      assert p == s;
      SplitOnNoSeparator(s, c);
    }
  }

  lemma {:induction false} FirstPieceRec(s: string, c: char)
    ensures var p := SplitOn(s, c)[0];
      |p| <= |s| && p == s[..|p|] && (|p| < |s| ==> s[|p|] == c)
    decreases |s|
  {
    if |s| > 0 {
      FirstPieceRec(s[1..], c);
    }
  }

  /** Python's `s.lstrip()` restated: leading whitespace dropped. */
  function LStrip(s: string): (r: string)
    ensures |r| > 0 ==> !IsSpace(r[0])
    decreases |s|
  {
    if |s| > 0 && IsSpace(s[0]) then LStrip(s[1..]) else s
  }

  /** Trailing whitespace dropped. */
  function RStrip(s: string): (r: string)
    ensures |r| > 0 ==> !IsSpace(r[|r| - 1])
    decreases |s|
  {
    if |s| > 0 && IsSpace(s[|s| - 1]) then RStrip(s[..|s| - 1]) else s
  }

  /**
   * What Python 2's `int(s)` does with a string: surrounding whitespace is
   * ignored, then one optional sign, then (after any further whitespace,
   * which the C conversion routine skips as well) one or more ASCII
   * digits; anything else raises, which is `None` here.
   */
  function ParseInt(s: string): Option<int> {
    var t := RStrip(LStrip(s));
    if |t| > 0 && (t[0] == '+' || t[0] == '-') then
      var u := LStrip(t[1..]);
      if |u| > 0 && AllDigits(u) then
        var v: int := DigitsValue(u);
        Some(if t[0] == '-' then -v else v)
      else
        None
    else if |t| > 0 && AllDigits(t) then
      Some(DigitsValue(t))
    else
      None
  }

  /** A sign, blanks and digits read as the signed value of the digits, as `int('- 1') == -1`. */
  lemma ParseIntSigned(sign: char, blanks: string, d: string)
    requires sign == '+' || sign == '-'
    requires forall i :: 0 <= i < |blanks| ==> IsSpace(blanks[i])
    requires |d| > 0 && AllDigits(d)
    ensures ParseInt([sign] + blanks + d) == Some(if sign == '-' then -(DigitsValue(d) as int) else DigitsValue(d))
  {
    var s := [sign] + (blanks + d);
    assert s == [sign] + blanks + d;
    SignedUnstripped(sign, blanks, d, s);
    SignedLStrip(sign, blanks, d, s);
    ParseIntSignedText(s, d);
  }

  lemma SignedUnstripped(sign: char, blanks: string, d: string, s: string)
    requires sign == '+' || sign == '-'
    requires |d| > 0 && AllDigits(d)
    requires s == [sign] + (blanks + d)
    ensures RStrip(LStrip(s)) == s
  {
    assert s[0] == sign;
    assert s[|s| - 1] == d[|d| - 1];
    Unstripped(s);
  }

  lemma SignedLStrip(sign: char, blanks: string, d: string, s: string)
    requires forall i :: 0 <= i < |blanks| ==> IsSpace(blanks[i])
    requires |d| > 0 && AllDigits(d)
    requires s == [sign] + (blanks + d)
    ensures LStrip(s[1..]) == d
  {
    assert s[1..] == blanks + d;
    LStripBlanks(blanks, d);
  }

  lemma ParseIntSignedText(t: string, d: string)
    requires RStrip(LStrip(t)) == t
    requires |t| > 0 && (t[0] == '+' || t[0] == '-')
    requires LStrip(t[1..]) == d && |d| > 0 && AllDigits(d)
    ensures ParseInt(t) == Some(if t[0] == '-' then -(DigitsValue(d) as int) else DigitsValue(d))
  {
    var t' := RStrip(LStrip(t));
    assert t' == t;
    assert |t'| > 0 && (t'[0] == '+' || t'[0] == '-');
    var u := LStrip(t'[1..]);
    assert u == d;
    assert |u| > 0 && AllDigits(u);
  }

  /** A text with no blank at either end is its own strip. */
  lemma Unstripped(s: string)
    requires |s| > 0 && !IsSpace(s[0]) && !IsSpace(s[|s| - 1])
    ensures RStrip(LStrip(s)) == s
  {
    assert LStrip(s) == s;
  }

  lemma {:induction false} LStripBlanks(blanks: string, d: string)
    requires forall i :: 0 <= i < |blanks| ==> IsSpace(blanks[i])
    requires |d| > 0 && !IsSpace(d[0])
    ensures LStrip(blanks + d) == d
    decreases |blanks|
  {
    if |blanks| == 0 {
      assert blanks + d == d;
    } else {
      assert (blanks + d)[1..] == blanks[1..] + d;
      LStripBlanks(blanks[1..], d);
    }
  }

  /** `int()` of a non-empty digit string is the number it denotes. */
  lemma ParseIntOfDigits(s: string)
    requires |s| > 0 && AllDigits(s)
    ensures ParseInt(s) == Some(DigitsValue(s))
  {
    assert !IsSpace(s[0]) && !IsSpace(s[|s| - 1]);
    assert LStrip(s) == s;
    assert RStrip(s) == s;
  }
}
