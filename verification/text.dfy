/** String helpers shared by the Python handlers and the JavaScript viewer:
    splitting on one separator character, joining, replacing one character,
    searching, trimming and the lexicographic order of JavaScript's `<`.
    Strings are sequences of chars. */
module Text {

  /** Number of occurrences of `c` in `s`. */
  function Count(s: string, c: char): nat
  {
    if |s| == 0 then 0 else (if s[0] == c then 1 else 0) + Count(s[1..], c)
  }

  lemma {:induction false} CountConcat(a: string, b: string, c: char)
    ensures Count(a + b, c) == Count(a, c) + Count(b, c)
  {
    if |a| == 0 {
      assert a + b == b;
    } else {
      assert (a + b)[1..] == a[1..] + b;
      CountConcat(a[1..], b, c);
    }
  }

  lemma {:induction false} CountAbsent(s: string, c: char)
    ensures c !in s <==> Count(s, c) == 0
  {
    if |s| > 0 {
      CountAbsent(s[1..], c);
      assert s == [s[0]] + s[1..];
    }
  }

  /** `s.split(sep)` for a one-character separator, as Python's `str.split(" ")`
      and JavaScript's `String.prototype.split("\t")` both behave: every
      separator ends a field and empty fields are kept, so "" gives [""]. */
  function Split(s: string, sep: char): (r: seq<string>)
    ensures |r| == Count(s, sep) + 1
    ensures forall i :: 0 <= i < |r| ==> sep !in r[i]
  {
    if |s| == 0 then [""]
    else
      var rest := Split(s[1..], sep);
      if s[0] == sep then [""] + rest
      else [[s[0]] + rest[0]] + rest[1..]
  }

  /** `sep.join(parts)` (Python) and `parts.join(sep)` (JavaScript). */
  function Join(parts: seq<string>, sep: string): string
  {
    if |parts| == 0 then ""
    else if |parts| == 1 then parts[0]
    else parts[0] + sep + Join(parts[1..], sep)
  }

  lemma {:induction false} JoinCons(p: string, rest: seq<string>, sep: string)
    requires |rest| >= 1
    ensures Join([p] + rest, sep) == p + sep + Join(rest, sep)
  {
    assert ([p] + rest)[1..] == rest;
  }

  /** Joining the fields of a split with the separator gives back the text. */
  lemma {:induction false} JoinSplit(s: string, sep: char)
    ensures Join(Split(s, sep), [sep]) == s
  {
    if |s| > 0 {
      var rest := Split(s[1..], sep);
      JoinSplit(s[1..], sep);
      if s[0] == sep {
        JoinCons("", rest, [sep]);
      } else if |rest| == 1 {
        assert Split(s, sep) == [[s[0]] + rest[0]];
      } else {
        var r := Split(s, sep);
        assert r == [[s[0]] + rest[0]] + rest[1..];
        JoinCons([s[0]] + rest[0], rest[1..], [sep]);
        JoinCons(rest[0], rest[1..], [sep]);
        assert rest == [rest[0]] + rest[1..];
      }
    }
  }

  lemma {:induction false} SplitWithout(a: string, sep: char)
    requires sep !in a
    ensures Split(a, sep) == [a]
  {
    if |a| > 0 {
      SplitWithout(a[1..], sep);
      assert [a[0]] + a[1..] == a;
    }
  }

  /** Splitting brings in no character the text lacks. */
  lemma {:induction false} SplitKeepsAbsent(s: string, sep: char, c: char)
    requires c !in s
    ensures forall i :: 0 <= i < |Split(s, sep)| ==> c !in Split(s, sep)[i]
  {
    if |s| > 0 {
      SplitKeepsAbsent(s[1..], sep, c);
      assert s[0] != c;
    }
  }

  /** Joining two non-empty lists of parts puts one separator between the
      two joins. */
  lemma {:induction false} JoinConcat(a: seq<string>, b: seq<string>, sep: string)
    requires |a| >= 1 && |b| >= 1
    ensures Join(a + b, sep) == Join(a, sep) + sep + Join(b, sep)
  {
    if |a| == 1 {
      JoinCons(a[0], b, sep);
      assert a + b == [a[0]] + b;
    } else {
      JoinConcat(a[1..], b, sep);
      assert (a + b)[1..] == a[1..] + b;
    }
  }

  /** A separator splits off the field before it. */
  lemma {:induction false} SplitAfter(a: string, sep: char, b: string)
    requires sep !in a
    ensures Split(a + [sep] + b, sep) == [a] + Split(b, sep)
  {
    if |a| == 0 {
      assert a + [sep] + b == [sep] + b;
      assert ([sep] + b)[1..] == b;
    } else {
      assert (a + [sep] + b)[1..] == a[1..] + [sep] + b;
      SplitAfter(a[1..], sep, b);
      assert [a[0]] + a[1..] == a;
    }
  }

  /** Joining parts without `c` by a separator other than `c` gives a text
      without `c`. */
  lemma {:induction false} JoinWithout(parts: seq<string>, c: char, sep: char)
    requires c != sep && forall k :: 0 <= k < |parts| ==> c !in parts[k]
    ensures c !in Join(parts, [sep])
  {
    if |parts| > 1 {
      JoinWithout(parts[1..], c, sep);
    }
  }

  /** A separator splits a text into the fields before it and the fields
      after it. */
  lemma {:induction false} SplitConcat(a: string, sep: char, b: string)
    ensures Split(a + [sep] + b, sep) == Split(a, sep) + Split(b, sep)
  {
    if |a| == 0 {
      assert a + [sep] + b == [sep] + b;
      assert ([sep] + b)[1..] == b;
    } else {
      assert (a + [sep] + b)[1..] == a[1..] + [sep] + b;
      SplitConcat(a[1..], sep, b);
    }
  }

  /** Splitting the joined fields gives the fields back when no field holds
      the separator. */
  lemma {:induction false} SplitJoin(parts: seq<string>, sep: char)
    requires |parts| >= 1
    requires forall i :: 0 <= i < |parts| ==> sep !in parts[i]
    ensures Split(Join(parts, [sep]), sep) == parts
  {
    if |parts| == 1 {
      SplitWithout(parts[0], sep);
    } else {
      SplitJoin(parts[1..], sep);
      SplitAfter(parts[0], sep, Join(parts[1..], [sep]));
      assert parts == [parts[0]] + parts[1..];
    }
  }

  /** The first field of a split is the text up to the first separator. */
  lemma {:induction false} SplitFirst(s: string, sep: char)
    ensures var f := Split(s, sep)[0];
      |f| <= |s| && s[..|f|] == f && (|f| < |s| ==> s[|f|] == sep)
  {
    if |s| > 0 && s[0] != sep {
      SplitFirst(s[1..], sep);
    }
  }

  /** `s.replace(c, rep)` for a one-character pattern: every occurrence. */
  function ReplaceChar(s: string, c: char, rep: string): string
  {
    if |s| == 0 then "" else (if s[0] == c then rep else [s[0]]) + ReplaceChar(s[1..], c, rep)
  }

  /** Replacing `c` by a text without `c` and without `d` leaves no `c` and
      keeps the number of `d`s. */
  lemma {:induction false} ReplaceCharCounts(s: string, c: char, rep: string, d: char)
    requires c !in rep && d !in rep && d != c
    ensures c !in ReplaceChar(s, c, rep)
    ensures Count(ReplaceChar(s, c, rep), d) == Count(s, d)
  {
    if |s| > 0 {
      ReplaceCharCounts(s[1..], c, rep, d);
      var head := if s[0] == c then rep else [s[0]];
      CountConcat(head, ReplaceChar(s[1..], c, rep), d);
      CountAbsent(rep, d);
    }
  }

  /** Replacing a character works piece by piece. */
  lemma {:induction false} ReplaceCharConcat(a: string, b: string, c: char, rep: string)
    ensures ReplaceChar(a + b, c, rep) == ReplaceChar(a, c, rep) + ReplaceChar(b, c, rep)
  {
    if |a| == 0 {
      assert a + b == b;
    } else {
      assert (a + b)[1..] == a[1..] + b;
      ReplaceCharConcat(a[1..], b, c, rep);
      var head := if a[0] == c then rep else [a[0]];
      assert ReplaceChar(a + b, c, rep) == head + (ReplaceChar(a[1..], c, rep) + ReplaceChar(b, c, rep));
    }
  }

  /** `ReplaceChar` applied to every part. */
  function ReplaceEach(parts: seq<string>, c: char, rep: string): (r: seq<string>)
    ensures |r| == |parts| && forall i :: 0 <= i < |parts| ==> r[i] == ReplaceChar(parts[i], c, rep)
  {
    seq(|parts|, i requires 0 <= i < |parts| => ReplaceChar(parts[i], c, rep))
  }

  /** Replacing a character other than the separator in joined parts is
      joining the replaced parts. */
  lemma {:induction false} ReplaceCharJoin(parts: seq<string>, sep: char, c: char, rep: string)
    requires sep != c
    ensures ReplaceChar(Join(parts, [sep]), c, rep) == Join(ReplaceEach(parts, c, rep), [sep])
  {
    if |parts| > 1 {
      var tail := ReplaceEach(parts[1..], c, rep);
      ReplaceCharJoin(parts[1..], sep, c, rep);
      ReplaceCharConcat(parts[0] + [sep], Join(parts[1..], [sep]), c, rep);
      ReplaceCharConcat(parts[0], [sep], c, rep);
      assert ReplaceChar([sep], c, rep) == [sep] by {
        assert [sep][1..] == "";
      }
      assert ReplaceEach(parts, c, rep)[1..] == tail;
    }
  }

  lemma {:induction false} ReplaceCharAbsent(s: string, c: char, rep: string)
    requires c !in s
    ensures ReplaceChar(s, c, rep) == s
  {
    if |s| > 0 {
      ReplaceCharAbsent(s[1..], c, rep);
      assert [s[0]] + s[1..] == s;
    }
  }

  /** `s.replace(pat, rep)` for a non-empty pattern: matches are replaced
      left to right and do not overlap. */
  function ReplaceAll(s: string, pat: string, rep: string): string
    requires |pat| > 0
    decreases |s|
  {
    if |s| < |pat| then s
    else if s[..|pat|] == pat then rep + ReplaceAll(s[|pat|..], pat, rep)
    else [s[0]] + ReplaceAll(s[1..], pat, rep)
  }

  /** A text without the pattern's first character is left as it is. */
  lemma {:induction false} ReplaceAllAbsent(s: string, pat: string, rep: string)
    requires |pat| > 0 && pat[0] !in s
    ensures ReplaceAll(s, pat, rep) == s
  {
    if |s| >= |pat| {
      assert s[..|pat|][0] == s[0];
      ReplaceAllAbsent(s[1..], pat, rep);
      assert [s[0]] + s[1..] == s;
    }
  }

  /** Dropping `d` characters moves every match `d` places to the left. */
  lemma MatchAtShift(s: string, d: nat, pat: string, k: nat)
    requires d <= |s|
    ensures MatchAt(s[d..], pat, k) <==> MatchAt(s, pat, k + d)
  {
    if MatchAt(s[d..], pat, k) {
      forall j | 0 <= j < |pat| ensures s[k + d + j] == pat[j] {
        assert s[d..][k + j] == s[k + d + j];
      }
    }
    if MatchAt(s, pat, k + d) {
      forall j | 0 <= j < |pat| ensures s[d..][k + j] == pat[j] {
        assert s[d..][k + j] == s[k + d + j];
      }
    }
  }

  /** The first match of `pat`, right after a prefix `a` that holds none,
      is replaced, and the rest of the text is rewritten after it. */
  lemma {:induction false} ReplaceAllFirstMatch(a: string, pat: string, rep: string, b: string)
    requires |pat| > 0
    requires forall k :: 0 <= k < |a| ==> !MatchAt(a + pat + b, pat, k)
    decreases |a|
    ensures ReplaceAll(a + pat + b, pat, rep) == a + rep + ReplaceAll(b, pat, rep)
  {
    var s := a + pat + b;
    if |a| == 0 {
      assert s == pat + b;
      assert s[..|pat|] == pat && s[|pat|..] == b;
    } else {
      MatchAtSlice(s, pat, 0);
      assert s[..|pat|] != pat;
      var t := a[1..] + pat + b;
      assert s[1..] == t;
      forall k | 0 <= k < |a[1..]| ensures !MatchAt(t, pat, k) {
        MatchAtShift(s, 1, pat, k);
      }
      ReplaceAllFirstMatch(a[1..], pat, rep, b);
      assert [s[0]] + (a[1..] + rep + ReplaceAll(b, pat, rep)) == a + rep + ReplaceAll(b, pat, rep);
    }
  }

  /** The first character of `s.replace("\\n", "\n")` is an n only when the
      text itself starts with an n. */
  lemma UnescapeHead(t: string)
    requires |t| > 0
    ensures |ReplaceAll(t, "\\n", "\n")| > 0
    ensures ReplaceAll(t, "\\n", "\n")[0] == 'n' ==> t[0] == 'n'
  {
  }

  /** After `s.replace("\\n", "\n")` no backslash is followed by an n:
      every escaped newline is gone, and the rewrite creates none. */
  lemma {:induction false} UnescapeLeavesNoEscape(s: string)
    decreases |s|
    ensures forall k :: !MatchAt(ReplaceAll(s, "\\n", "\n"), "\\n", k)
  {
    var r := ReplaceAll(s, "\\n", "\n");
    if |s| < 2 {
      assert r == s;
    } else if s[..2] == "\\n" {
      var rest := ReplaceAll(s[2..], "\\n", "\n");
      UnescapeLeavesNoEscape(s[2..]);
      assert r == "\n" + rest && rest == r[1..];
      forall k ensures !MatchAt(r, "\\n", k) {
        if k == 0 {
          assert r[0] == '\n' != "\\n"[0];
        }
        if k >= 1 {
          MatchAtShift(r, 1, "\\n", k - 1);
        }
      }
    } else {
      var rest := ReplaceAll(s[1..], "\\n", "\n");
      UnescapeLeavesNoEscape(s[1..]);
      UnescapeHead(s[1..]);
      assert r == [s[0]] + rest && rest == r[1..];
      forall k ensures !MatchAt(r, "\\n", k) {
        if k == 0 && |r| >= 2 && r[0] == '\\' {
          assert s[1] != 'n' by {
            assert s[..2] == [s[0], s[1]];
          }
          assert r[1] == rest[0] != 'n';
        }
        if k >= 1 {
          MatchAtShift(r, 1, "\\n", k - 1);
        }
      }
    }
  }

  /** `pat` occurs in `s` at index `k`. */
  predicate MatchAt(s: string, pat: string, k: int)
  {
    0 <= k && k + |pat| <= |s| && forall j :: 0 <= j < |pat| ==> s[k + j] == pat[j]
  }

  /** A match is a slice equal to the pattern. */
  lemma MatchAtSlice(s: string, pat: string, k: int)
    ensures MatchAt(s, pat, k) <==> 0 <= k && k + |pat| <= |s| && s[k..k + |pat|] == pat
  {
    if 0 <= k && k + |pat| <= |s| && MatchAt(s, pat, k) {
      assert s[k..k + |pat|] == pat;
    }
  }

  /** `s.indexOf(pat, from)` for a non-empty pattern: the first match at or
      after `from`, or -1. */
  function IndexOf(s: string, pat: string, from: nat): (r: int)
    requires |pat| > 0
    decreases |s| - from
    ensures r == -1 || (from <= r && r + |pat| <= |s|)
  {
    if from + |pat| > |s| then -1
    else if MatchAt(s, pat, from) then from
    else IndexOf(s, pat, from + 1)
  }

  /** `IndexOf` finds the first match: a match where it points, none
      between `from` and there, and none at all from `from` on when it
      gives -1. */
  lemma {:induction false} IndexOfIsFirst(s: string, pat: string, from: nat)
    requires |pat| > 0
    decreases |s| - from
    ensures var r := IndexOf(s, pat, from);
      (r != -1 ==> MatchAt(s, pat, r))
      && (r == -1 ==> forall k :: from <= k ==> !MatchAt(s, pat, k))
      && (r != -1 ==> forall k :: from <= k < r ==> !MatchAt(s, pat, k))
  {
    if from + |pat| <= |s| && !MatchAt(s, pat, from) {
      IndexOfIsFirst(s, pat, from + 1);
    }
  }

  /** A match with none before it, from `from` on, is what `IndexOf`
      finds. */
  lemma IndexOfFirst(s: string, pat: string, from: nat, i: int)
    requires |pat| > 0 && from <= i && MatchAt(s, pat, i)
    requires forall k :: from <= k < i ==> !MatchAt(s, pat, k)
    ensures IndexOf(s, pat, from) == i
  {
    IndexOfIsFirst(s, pat, from);
  }

  /** The last match of `pat` at or below `k`, or -1. */
  function LastIndexAtOrBelow(s: string, pat: string, k: int): (r: int)
    decreases k + 1
    ensures r == -1 || (0 <= r <= k && r + |pat| <= |s|)
  {
    if k < 0 then -1
    else if MatchAt(s, pat, k) then k
    else LastIndexAtOrBelow(s, pat, k - 1)
  }

  /** `LastIndexAtOrBelow` finds a match where it points and none above
      it up to `k`. */
  lemma {:induction false} LastIndexAtOrBelowIsLast(s: string, pat: string, k: int)
    decreases k + 1
    ensures var r := LastIndexAtOrBelow(s, pat, k);
      (r == -1 || MatchAt(s, pat, r)) && forall j :: r < j <= k ==> !MatchAt(s, pat, j)
  {
    if k >= 0 && !MatchAt(s, pat, k) {
      LastIndexAtOrBelowIsLast(s, pat, k - 1);
    }
  }

  /** `s.lastIndexOf(pat)`: the last match, or -1. */
  function LastIndexOf(s: string, pat: string): (r: int)
  {
    LastIndexAtOrBelow(s, pat, |s| - |pat|)
  }

  lemma LastIndexOfIsLast(s: string, pat: string)
    ensures var r := LastIndexOf(s, pat);
      (r == -1 || MatchAt(s, pat, r)) && forall j :: r < j ==> !MatchAt(s, pat, j)
  {
    LastIndexAtOrBelowIsLast(s, pat, |s| - |pat|);
  }

  /** A string is its three pieces around two cut points. */
  lemma Pieces(s: string, i: nat, j: nat)
    requires i <= j <= |s|
    ensures s[..i] + s[i..j] + s[j..] == s
  {
  }

  /** `s.startsWith(p)`. */
  predicate StartsWith(s: string, p: string)
  {
    |p| <= |s| && s[..|p|] == p
  }

  /** JavaScript's `a < b` on two strings: lexicographic, a proper prefix
      being smaller. */
  predicate LexLess(a: string, b: string)
  {
    if |a| == 0 then |b| > 0
    else if |b| == 0 then false
    else if a[0] != b[0] then a[0] < b[0]
    else LexLess(a[1..], b[1..])
  }

  lemma {:induction false} LexLessIrreflexive(a: string)
    ensures !LexLess(a, a)
  {
    if |a| > 0 {
      LexLessIrreflexive(a[1..]);
    }
  }

  lemma {:induction false} LexLessAsymmetric(a: string, b: string)
    ensures LexLess(a, b) ==> !LexLess(b, a)
  {
    if |a| > 0 && |b| > 0 && a[0] == b[0] {
      LexLessAsymmetric(a[1..], b[1..]);
    }
  }

  lemma {:induction false} LexLessTransitive(a: string, b: string, c: string)
    ensures LexLess(a, b) && LexLess(b, c) ==> LexLess(a, c)
  {
    if |a| > 0 && |b| > 0 && |c| > 0 && a[0] == b[0] && b[0] == c[0] {
      LexLessTransitive(a[1..], b[1..], c[1..]);
    }
  }

  lemma {:induction false} LexLessTotal(a: string, b: string)
    ensures a == b || LexLess(a, b) || LexLess(b, a)
  {
    if |a| > 0 && |b| > 0 && a[0] == b[0] {
      LexLessTotal(a[1..], b[1..]);
      if a[1..] == b[1..] {
        assert a == [a[0]] + a[1..] && b == [b[0]] + b[1..];
      }
    }
  }

  /** The characters JavaScript's `trim` removes: WhiteSpace (including
      every Unicode space separator) and LineTerminator. */
  predicate IsJsSpace(c: char)
  {
    var n := c as int;
    (0x09 <= n <= 0x0D) || n == 0x20 || n == 0xA0 || n == 0x1680
    || (0x2000 <= n <= 0x200A) || n == 0x2028 || n == 0x2029 || n == 0x202F
    || n == 0x205F || n == 0x3000 || n == 0xFEFF
  }

  function TrimStart(s: string): (r: string)
    ensures |r| <= |s| && r == s[|s| - |r|..]
    ensures |r| > 0 ==> !IsJsSpace(r[0])
    ensures forall i :: 0 <= i < |s| - |r| ==> IsJsSpace(s[i])
  {
    if |s| > 0 && IsJsSpace(s[0]) then TrimStart(s[1..]) else s
  }

  function TrimEnd(s: string): (r: string)
    ensures |r| <= |s| && r == s[..|r|]
    ensures |r| > 0 ==> !IsJsSpace(r[|r| - 1])
    ensures forall i :: |r| <= i < |s| ==> IsJsSpace(s[i])
  {
    if |s| > 0 && IsJsSpace(s[|s| - 1]) then TrimEnd(s[..|s| - 1]) else s
  }

  /** `s.trim()`. */
  function Trim(s: string): string
  {
    TrimEnd(TrimStart(s))
  }

  /** A line is blank for `!line.trim()` exactly when every character is
      JavaScript white space. */
  lemma TrimEmpty(s: string)
    ensures Trim(s) == "" <==> forall i :: 0 <= i < |s| ==> IsJsSpace(s[i])
  {
    var t := TrimStart(s);
    if |t| > 0 {
      assert t[0] == s[|s| - |t|];
    }
  }

  function LowerChar(c: char): char
  {
    if 'A' <= c <= 'Z' then (c as int + 32) as char else c
  }

  /** `s.toLowerCase()` restricted to ASCII letters. */
  function ToLower(s: string): (r: string)
    ensures |r| == |s|
    ensures forall i :: 0 <= i < |s| ==> r[i] == LowerChar(s[i])
  {
    if |s| == 0 then "" else [LowerChar(s[0])] + ToLower(s[1..])
  }
}
