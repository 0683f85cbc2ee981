/** Python's string built-ins as the modelled code uses them: `str.replace`,
    `str.split` on a one-character separator, `str.join`, `str.strip` and
    `str.capitalize`. Case mapping covers ASCII letters only. */
module PyStrings {

  /** `s.replace(pat, rep)`: every non-overlapping occurrence of `pat`,
      scanning left to right, is replaced by `rep`. */
  function Replace(s: string, pat: string, rep: string): string
    requires |pat| > 0
    decreases |s|
  {
    if |s| < |pat| then s
    else if s[..|pat|] == pat then rep + Replace(s[|pat|..], pat, rep)
    else [s[0]] + Replace(s[1..], pat, rep)
  }

  /** `pat` occurs in `s` starting at `i`. */
  predicate OccursAt(s: string, pat: string, i: nat)
  {
    i + |pat| <= |s| && s[i..i + |pat|] == pat
  }

  predicate Occurs(s: string, pat: string)
  {
    exists i: nat | i <= |s| :: OccursAt(s, pat, i)
  }

  /** Replacing a pattern that does not occur changes nothing. */
  lemma {:induction false} ReplaceAbsent(s: string, pat: string, rep: string)
    requires |pat| > 0
    requires !Occurs(s, pat)
    ensures Replace(s, pat, rep) == s
    decreases |s|
  {
    if |s| >= |pat| {
      assert !OccursAt(s, pat, 0);
      assert s[0..|pat|] == s[..|pat|];
      forall i: nat | i <= |s[1..]| ensures !OccursAt(s[1..], pat, i) {
        assert !OccursAt(s, pat, i + 1);
      }
      ReplaceAbsent(s[1..], pat, rep);
    }
  }

  /** The number of replacements `s.replace(pat, rep)` makes. */
  function ReplaceCount(s: string, pat: string): nat
    requires |pat| > 0
    decreases |s|
  {
    if |s| < |pat| then 0
    else if s[..|pat|] == pat then 1 + ReplaceCount(s[|pat|..], pat)
    else ReplaceCount(s[1..], pat)
  }

  /** No replacement is made exactly when the pattern does not occur. */
  lemma ReplaceCountZero(s: string, pat: string)
    requires |pat| > 0
    ensures ReplaceCount(s, pat) == 0 <==> !Occurs(s, pat)
  {
    if ReplaceCount(s, pat) == 0 {
      CountZeroAbsent(s, pat);
    } else if !Occurs(s, pat) {
      AbsentCountZero(s, pat);
    }
  }

  lemma {:induction false} CountZeroAbsent(s: string, pat: string)
    requires |pat| > 0 && ReplaceCount(s, pat) == 0
    ensures !Occurs(s, pat)
    decreases |s|
  {
    if |s| >= |pat| {
      CountZeroAbsent(s[1..], pat);
      forall i: nat | i <= |s| ensures !OccursAt(s, pat, i) {
        if i == 0 {
          assert s[0..|pat|] == s[..|pat|];
        } else if i + |pat| <= |s| {
          assert !OccursAt(s[1..], pat, i - 1);
          assert s[1..][i - 1..i - 1 + |pat|] == s[i..i + |pat|];
        }
      }
    }
  }

  lemma {:induction false} AbsentCountZero(s: string, pat: string)
    requires |pat| > 0 && !Occurs(s, pat)
    ensures ReplaceCount(s, pat) == 0
    decreases |s|
  {
    if |s| >= |pat| {
      assert !OccursAt(s, pat, 0);
      assert s[0..|pat|] == s[..|pat|];
      forall i: nat | i <= |s[1..]| ensures !OccursAt(s[1..], pat, i) {
        assert !OccursAt(s, pat, i + 1);
        if i + |pat| <= |s[1..]| {
          assert s[1..][i..i + |pat|] == s[i + 1..i + 1 + |pat|];
        }
      }
      AbsentCountZero(s[1..], pat);
    }
  }

  /** Replacing by a text one character shorter shortens the string by
      one character per replacement. */
  lemma {:induction false} ReplaceLength(s: string, pat: string, rep: string)
    requires |pat| == |rep| + 1
    ensures |Replace(s, pat, rep)| + ReplaceCount(s, pat) == |s|
    decreases |s|
  {
    if |s| >= |pat| {
      if s[..|pat|] == pat {
        ReplaceLength(s[|pat|..], pat, rep);
      } else {
        ReplaceLength(s[1..], pat, rep);
      }
    }
  }

  /** A string that starts with the pattern: the first replacement is there. */
  lemma ReplaceAtStart(pat: string, rest: string, rep: string)
    requires |pat| > 0
    ensures Replace(pat + rest, pat, rep) == rep + Replace(rest, pat, rep)
    ensures ReplaceCount(pat + rest, pat) == 1 + ReplaceCount(rest, pat)
  {
    var s := pat + rest;
    assert s[..|pat|] == pat && s[|pat|..] == rest;
  }

  /** A character in neither the string nor the replacement is not in the result. */
  lemma {:induction false} ReplaceKeeps(s: string, pat: string, rep: string, x: char)
    requires |pat| > 0
    requires x !in rep && x !in s
    ensures x !in Replace(s, pat, rep)
    decreases |s|
  {
    if |s| >= |pat| {
      if s[..|pat|] == pat {
        ReplaceKeeps(s[|pat|..], pat, rep, x);
      } else {
        ReplaceKeeps(s[1..], pat, rep, x);
      }
    }
  }

  /** Replacing a single character by text without it leaves none behind. */
  lemma {:induction false} ReplaceCharRemovesIt(s: string, c: char, rep: string)
    requires c !in rep
    ensures c !in Replace(s, [c], rep)
    decreases |s|
  {
    if |s| >= 1 {
      ReplaceCharRemovesIt(s[1..], c, rep);
      if s[..1] != [c] {
        assert s[0] != c;
      }
    }
  }

  /** Replacing a single character never adds a character outside `rep`. */
  lemma {:induction false} ReplaceCharKeeps(s: string, c: char, rep: string, x: char)
    requires x !in rep && x !in s
    ensures x !in Replace(s, [c], rep)
    decreases |s|
  {
    if |s| >= 1 {
      ReplaceCharKeeps(s[1..], c, rep, x);
    }
  }

  /** Deleting a character keeps the first and last characters that are
      not that character. */
  lemma {:induction false} DeleteCharEnds(s: string, c: char)
    requires |s| > 0 && s[0] != c && s[|s| - 1] != c
    ensures var r := Replace(s, [c], "");
            |r| > 0 && r[0] == s[0] && r[|r| - 1] == s[|s| - 1]
    decreases |s|
  {
    assert s[..1] != [c];
    if |s| > 1 {
      var t := s[1..];
      assert t[|t| - 1] == s[|s| - 1];
      DeleteCharLast(t, c);
    }
  }

  lemma {:induction false} DeleteCharLast(s: string, c: char)
    requires |s| > 0 && s[|s| - 1] != c
    ensures var r := Replace(s, [c], "");
            |r| > 0 && r[|r| - 1] == s[|s| - 1]
    decreases |s|
  {
    if |s| > 1 {
      var t := s[1..];
      assert t[|t| - 1] == s[|s| - 1];
      DeleteCharLast(t, c);
    } else {
      assert s[..1] == s;
    }
  }

  /** `s.split(c)` for a one-character separator `c`. */
  function Split(s: string, c: char): (r: seq<string>)
    ensures |r| > 0
    ensures forall k :: 0 <= k < |r| ==> c !in r[k]
    decreases |s|
  {
    if |s| == 0 then [""]
    else
      var rest := Split(s[1..], c);
      if s[0] == c then [""] + rest
      else [[s[0]] + rest[0]] + rest[1..]
  }

  /** `c.join(xs)`. */
  function Join(xs: seq<string>, c: char): string
    decreases |xs|
  {
    if |xs| == 0 then ""
    else if |xs| == 1 then xs[0]
    else xs[0] + [c] + Join(xs[1..], c)
  }

  /** Joining the fields of a split gives back the string. */
  lemma {:induction false} JoinSplit(s: string, c: char)
    ensures Join(Split(s, c), c) == s
    decreases |s|
  {
    if |s| > 0 {
      var rest := Split(s[1..], c);
      JoinSplit(s[1..], c);
      if s[0] == c {
        assert Split(s, c) == [""] + rest;
        assert ([""] + rest)[1..] == rest;
      } else {
        var r := Split(s, c);
        assert r == [[s[0]] + rest[0]] + rest[1..];
        if |rest| > 1 {
          assert r[1..] == rest[1..];
          assert Join(rest, c) == rest[0] + [c] + Join(rest[1..], c);
        }
      }
    }
  }

  /** Splitting a join of separator-free fields gives back the fields. */
  lemma {:induction false} SplitJoin(xs: seq<string>, c: char)
    requires |xs| > 0
    requires forall k :: 0 <= k < |xs| ==> c !in xs[k]
    ensures Split(Join(xs, c), c) == xs
    decreases |xs|, |xs[0]|
  {
    if |xs[0]| > 0 {
      var x := xs[0];
      var ys := [x[1..]] + xs[1..];
      assert forall k :: 0 <= k < |ys| ==> c !in ys[k] by {
        forall k | 0 <= k < |ys| ensures c !in ys[k] {
          if k == 0 { assert forall ch :: ch in x[1..] ==> ch in x; }
        }
      }
      SplitJoin(ys, c);
      JoinConsChar(x, xs[1..], c);
      assert x[0] != c by { assert x[0] in x; }
      var j := Join(xs, c);
      assert j == [x[0]] + Join(ys, c);
      assert j[1..] == Join(ys, c);
      assert Split(j, c) == [[x[0]] + x[1..]] + ys[1..];
      assert [x[0]] + x[1..] == x;
      assert ys[1..] == xs[1..];
    } else if |xs| > 1 {
      var j := Join(xs, c);
      assert j == [c] + Join(xs[1..], c);
      assert j[1..] == Join(xs[1..], c);
      SplitJoin(xs[1..], c);
      assert xs == [""] + xs[1..];
    }
  }

  /** Peeling the first character off the first field of a join. */
  lemma JoinConsChar(x: string, rest: seq<string>, c: char)
    requires |x| > 0
    ensures Join([x] + rest, c) == [x[0]] + Join([x[1..]] + rest, c)
  {
    var a := [x] + rest;
    var b := [x[1..]] + rest;
    assert a[1..] == rest && b[1..] == rest;
    if |rest| > 0 {
      assert Join(a, c) == x + [c] + Join(rest, c);
      assert Join(b, c) == x[1..] + [c] + Join(rest, c);
      assert x == [x[0]] + x[1..];
    } else {
      assert x == [x[0]] + x[1..];
    }
  }

  /** The number of fields is one more than the number of separators. */
  function CountChar(s: string, c: char): nat
    decreases |s|
  {
    if |s| == 0 then 0 else (if s[0] == c then 1 else 0) + CountChar(s[1..], c)
  }

  lemma {:induction false} SplitCount(s: string, c: char)
    ensures |Split(s, c)| == CountChar(s, c) + 1
    decreases |s|
  {
    if |s| > 0 { SplitCount(s[1..], c); }
  }

  /** A character outside the string is in none of its fields. */
  lemma {:induction false} SplitKeeps(s: string, c: char, x: char)
    requires x !in s
    ensures forall k :: 0 <= k < |Split(s, c)| ==> x !in Split(s, c)[k]
    decreases |s|
  {
    if |s| > 0 {
      SplitKeeps(s[1..], c, x);
      var rest := Split(s[1..], c);
      if s[0] != c {
        assert Split(s, c) == [[s[0]] + rest[0]] + rest[1..];
        assert forall k :: 1 <= k < |Split(s, c)| ==> Split(s, c)[k] == rest[k];
      }
    }
  }

  /** A character that is neither the separator nor in any field is not
      in the join. */
  lemma {:induction false} JoinKeeps(xs: seq<string>, c: char, x: char)
    requires x != c && forall k :: 0 <= k < |xs| ==> x !in xs[k]
    ensures x !in Join(xs, c)
    decreases |xs|
  {
    if |xs| > 1 {
      JoinKeeps(xs[1..], c, x);
    }
  }

  /** A character occurs exactly when it is counted. */
  lemma {:induction false} CountCharPositive(s: string, c: char)
    ensures CountChar(s, c) > 0 <==> c in s
    decreases |s|
  {
    if |s| > 0 {
      CountCharPositive(s[1..], c);
      assert s == [s[0]] + s[1..];
    }
  }

  /** The characters `str.isspace` accepts (all of Python's whitespace). */
  predicate IsSpace(ch: char)
  {
    ('\t' <= ch <= '\r') || ('\U{1C}' <= ch <= ' ') || ch == '\U{85}' || ch == '\U{A0}'
    || ch == '\U{1680}' || ('\U{2000}' <= ch <= '\U{200A}') || ch == '\U{2028}'
    || ch == '\U{2029}' || ch == '\U{202F}' || ch == '\U{205F}' || ch == '\U{3000}'
  }

  /** The end of the run of whitespace in `s` that starts at `i`. */
  function SpaceRunEnd(s: string, i: nat): (n: nat)
    requires i <= |s|
    ensures i <= n <= |s| && (n < |s| ==> !IsSpace(s[n]))
    ensures forall k :: i <= k < n ==> IsSpace(s[k])
    decreases |s| - i
  {
    if i < |s| && IsSpace(s[i]) then SpaceRunEnd(s, i + 1) else i
  }

  /** The start of the run of whitespace in `s[lo..j]` that ends at `j`. */
  function SpaceRunStart(s: string, lo: nat, j: nat): (n: nat)
    requires lo <= j <= |s|
    ensures lo <= n <= j && (n > lo ==> !IsSpace(s[n - 1]))
    ensures forall k :: n <= k < j ==> IsSpace(s[k])
    decreases j
  {
    if j > lo && IsSpace(s[j - 1]) then SpaceRunStart(s, lo, j - 1) else j
  }

  /** `s.strip()`: the longest slice of `s` whose ends are not whitespace,
      with only whitespace cut off either side. */
  function Strip(s: string): (r: string)
    ensures |r| > 0 ==> !IsSpace(r[0]) && !IsSpace(r[|r| - 1])
    ensures exists i, j :: 0 <= i <= j <= |s| && r == s[i..j]
                           && (forall k :: 0 <= k < i ==> IsSpace(s[k]))
                           && (forall k :: j <= k < |s| ==> IsSpace(s[k]))
  {
    var i := SpaceRunEnd(s, 0);
    var j := SpaceRunStart(s, i, |s|);
    s[i..j]
  }

  /** The end of the run of characters from `cs` in `s` that starts at `i`. */
  function CharRunEnd(s: string, i: nat, cs: set<char>): (n: nat)
    requires i <= |s|
    ensures i <= n <= |s| && (n < |s| ==> s[n] !in cs)
    ensures forall k :: i <= k < n ==> s[k] in cs
    decreases |s| - i
  {
    if i < |s| && s[i] in cs then CharRunEnd(s, i + 1, cs) else i
  }

  /** The start of the run of characters from `cs` in `s[lo..j]` that ends at `j`. */
  function CharRunStart(s: string, lo: nat, j: nat, cs: set<char>): (n: nat)
    requires lo <= j <= |s|
    ensures lo <= n <= j && (n > lo ==> s[n - 1] !in cs)
    ensures forall k :: n <= k < j ==> s[k] in cs
    decreases j
  {
    if j > lo && s[j - 1] in cs then CharRunStart(s, lo, j - 1, cs) else j
  }

  /** `s.strip(chars)`: the longest slice of `s` that neither starts nor
      ends with one of `cs`, with only those characters cut off. */
  function StripChars(s: string, cs: set<char>): (r: string)
    ensures |r| > 0 ==> r[0] !in cs && r[|r| - 1] !in cs
    ensures exists i, j :: 0 <= i <= j <= |s| && r == s[i..j]
                           && (forall k :: 0 <= k < i ==> s[k] in cs)
                           && (forall k :: j <= k < |s| ==> s[k] in cs)
  {
    var i := CharRunEnd(s, 0, cs);
    var j := CharRunStart(s, i, |s|, cs);
    s[i..j]
  }

  /** A string with no whitespace at either end is its own strip. */
  lemma StripTrimmed(s: string)
    requires |s| > 0 ==> !IsSpace(s[0]) && !IsSpace(s[|s| - 1])
    ensures Strip(s) == s
  {
    assert SpaceRunEnd(s, 0) == 0;
    assert SpaceRunStart(s, 0, |s|) == |s|;
    assert s[0..|s|] == s;
  }

  function ToUpper(ch: char): char
  {
    if 'a' <= ch <= 'z' then (ch as int - 32) as char else ch
  }

  function ToLower(ch: char): char
  {
    if 'A' <= ch <= 'Z' then (ch as int + 32) as char else ch
  }

  function Lower(s: string): (r: string)
    ensures |r| == |s| && forall k :: 0 <= k < |s| ==> r[k] == ToLower(s[k])
  {
    seq(|s|, k requires 0 <= k < |s| => ToLower(s[k]))
  }

  /** `s.lower() == t`, one character at a time. */
  predicate LowerIs(s: string, t: string)
    decreases |s|
  {
    |s| == |t| && (|s| == 0 || (ToLower(s[0]) == t[0] && LowerIs(s[1..], t[1..])))
  }

  lemma {:induction false} LowerIsMeaning(s: string, t: string)
    ensures LowerIs(s, t) <==> Lower(s) == t
    decreases |s|
  {
    if |s| == |t| && |s| > 0 {
      LowerIsMeaning(s[1..], t[1..]);
      assert Lower(s) == [ToLower(s[0])] + Lower(s[1..]);
      assert t == [t[0]] + t[1..];
    }
  }

  /** `s.capitalize()`: first character upper case, the rest lower case. */
  function Capitalize(s: string): (r: string)
    ensures |r| == |s|
    ensures |s| > 0 ==> r[0] == ToUpper(s[0])
    ensures forall k :: 0 < k < |s| ==> r[k] == ToLower(s[k])
  {
    if |s| == 0 then "" else [ToUpper(s[0])] + Lower(s[1..])
  }

  /** Case mapping never turns one thing into another: whitespace stays
      whitespace, a separator stays a separator. */
  lemma CaseMapKeepsClass(ch: char)
    ensures IsSpace(ToUpper(ch)) == IsSpace(ch) && IsSpace(ToLower(ch)) == IsSpace(ch)
    ensures (ToUpper(ch) == ch) || ('a' <= ch <= 'z')
    ensures (ToLower(ch) == ch) || ('A' <= ch <= 'Z')
  {
  }

  lemma CapitalizeIdempotent(s: string)
    ensures Capitalize(Capitalize(s)) == Capitalize(s)
  {
  }

  predicate StartsWith(s: string, prefix: string)
  {
    |prefix| <= |s| && s[..|prefix|] == prefix
  }
}
