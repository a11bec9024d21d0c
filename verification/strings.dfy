/** The JavaScript string operations the application relies on, with their
    ECMAScript meaning: `includes`, `toLowerCase` (ASCII letters), `trim`,
    `split('\n')` and `join('\n')`. A JavaScript string is a sequence of
    UTF-16 code units; here it is a sequence of Unicode scalar values. */
module Strings {

  /** `t` occurs in `s` starting at index `i`. */
  ghost predicate OccursAt(s: string, t: string, i: int) {
    0 <= i && i + |t| <= |s| && s[i..i + |t|] == t
  }

  lemma OccursInTail(s: string, t: string)
    requires |s| > 0
    requires !OccursAt(s, t, 0)
    ensures (exists i :: OccursAt(s, t, i)) <==> (exists j :: OccursAt(s[1..], t, j))
  {
    if i :| OccursAt(s, t, i) {
      assert i > 0;
      assert s[1..][i - 1..i - 1 + |t|] == s[i..i + |t|];
      assert OccursAt(s[1..], t, i - 1);
    }
    if j :| OccursAt(s[1..], t, j) {
      assert s[1..][j..j + |t|] == s[j + 1..j + 1 + |t|];
      assert OccursAt(s, t, j + 1);
    }
  }

  /** `s.includes(t)`: plain substring containment. */
  function Contains(s: string, t: string): (b: bool)
    ensures b <==> exists i :: OccursAt(s, t, i)
    decreases |s|
  {
    if |t| > |s| then
      false
    else if s[..|t|] == t then
      assert OccursAt(s, t, 0);
      true
    else
      OccursInTail(s, t);
      Contains(s[1..], t)
  }

  /** `t` occurs nowhere in `s` when its first character does not occur
      early enough in `s`. */
  lemma NoOccurrenceByFirstChar(s: string, t: string)
    requires 0 < |t| <= |s|
    requires t[0] !in s[..|s| - |t| + 1]
    ensures forall i :: !OccursAt(s, t, i)
  {
    forall i | 0 <= i <= |s| - |t|
      ensures !OccursAt(s, t, i)
    {
      assert s[..|s| - |t| + 1][i] == s[i];
    }
  }

  /** `t` occurs nowhere in `s` when its first character is absent from `s`. */
  lemma NoOccurrenceWithout(s: string, t: string)
    requires 0 < |t| && t[0] !in s
    ensures forall i :: !OccursAt(s, t, i)
  {
    forall i | 0 <= i <= |s| - |t|
      ensures !OccursAt(s, t, i)
    {
      assert s[i] != t[0];
    }
  }

  /** `t` occurs nowhere in `s` when one of its characters is absent from
      `s`. */
  lemma NoOccurrenceMissingChar(s: string, t: string, m: nat)
    requires m < |t| && t[m] !in s
    ensures forall i :: !OccursAt(s, t, i)
  {
    forall i | 0 <= i <= |s| - |t|
      ensures !OccursAt(s, t, i)
    {
      assert s[i..i + |t|][m] == s[i + m];
    }
  }

  /** ASCII part of `String.prototype.toLowerCase` for one character. */
  function LowerChar(c: char): (d: char)
    ensures 'A' <= c <= 'Z' ==> 'a' <= d <= 'z' && d as int - c as int == 32
    ensures !('A' <= c <= 'Z') ==> d == c
  {
    if 'A' <= c <= 'Z' then (c as int + 32) as char else c
  }

  function Lower(s: string): (r: string)
    ensures |r| == |s|
    ensures forall i :: 0 <= i < |s| ==> r[i] == LowerChar(s[i])
  {
    seq(|s|, i requires 0 <= i < |s| => LowerChar(s[i]))
  }

  /** Lower-casing twice is lower-casing once. */
  lemma LowerIdempotent(s: string)
    ensures Lower(Lower(s)) == Lower(s)
  {
  }

  /** The characters `String.prototype.trim` strips: ECMAScript WhiteSpace
      (tab, vertical tab, form feed, space, no-break space, byte-order mark and
      the other Unicode space separators) and LineTerminator (LF, CR, U+2028,
      U+2029). U+0009 to U+000D are tab, LF, VT, FF and CR. */
  predicate IsWhiteSpace(c: char) {
    || '\t' <= c <= '\r'
    || c == ' ' || c == '\U{00A0}' || c == '\U{1680}'
    || '\U{2000}' <= c <= '\U{200A}'
    || c == '\U{2028}' || c == '\U{2029}' || c == '\U{202F}' || c == '\U{205F}'
    || c == '\U{3000}' || c == '\U{FEFF}'
  }

  ghost predicate AllWhiteSpace(s: string) {
    forall i :: 0 <= i < |s| ==> IsWhiteSpace(s[i])
  }

  /** Neither end of `s` is white space. */
  predicate IsTrimmed(s: string) {
    |s| == 0 || (!IsWhiteSpace(s[0]) && !IsWhiteSpace(s[|s| - 1]))
  }

  function TrimStart(s: string): (r: string)
    ensures |r| <= |s| && r == s[|s| - |r|..]
    ensures AllWhiteSpace(s[..|s| - |r|])
    ensures |r| == 0 || !IsWhiteSpace(r[0])
    decreases |s|
  {
    if |s| > 0 && IsWhiteSpace(s[0]) then
      var r := TrimStart(s[1..]);
      assert s[..|s| - |r|] == [s[0]] + s[1..][..|s| - 1 - |r|];
      r
    else
      s
  }

  function TrimEnd(s: string): (r: string)
    ensures |r| <= |s| && r == s[..|r|]
    ensures AllWhiteSpace(s[|r|..])
    ensures |r| == 0 || !IsWhiteSpace(r[|r| - 1])
    decreases |s|
  {
    if |s| > 0 && IsWhiteSpace(s[|s| - 1]) then
      var r := TrimEnd(s[..|s| - 1]);
      assert s[|r|..] == s[..|s| - 1][|r|..] + [s[|s| - 1]];
      WhiteSpaceSnoc(s[..|s| - 1][|r|..], s[|s| - 1]);
      r
    else
      s
  }

  lemma WhiteSpaceSnoc(t: string, c: char)
    requires AllWhiteSpace(t) && IsWhiteSpace(c)
    ensures AllWhiteSpace(t + [c])
  {
  }

  /** What is left after stripping both ends sits in `s` at offset `a`, with
      only white space around it. */
  ghost predicate StrippedFrom(s: string, r: string, a: int) {
    0 <= a <= |s| - |r| && s[a..a + |r|] == r && AllWhiteSpace(s[..a]) && AllWhiteSpace(s[a + |r|..])
  }

  lemma StripBothEnds(s: string)
    ensures StrippedFrom(s, TrimEnd(TrimStart(s)), |s| - |TrimStart(s)|)
  {
    var t := TrimStart(s);
    StripParts(s, t, TrimEnd(t), |s| - |t|);
  }

  /** A prefix `r` of a suffix `t` of `s`, with white space cut on both
      sides, is stripped from `s`. */
  lemma StripParts(s: string, t: string, r: string, a: int)
    requires 0 <= a == |s| - |t| && t == s[a..] && AllWhiteSpace(s[..a])
    requires |r| <= |t| && r == t[..|r|] && AllWhiteSpace(t[|r|..])
    ensures StrippedFrom(s, r, a)
  {
    assert s[a..a + |r|] == r;
    assert s[a + |r|..] == t[|r|..];
  }

  /** `s.trim()`: the longest infix of `s` with no white space at either end
      (see `TrimStrips` for what is removed). */
  function Trim(s: string): (r: string)
    ensures IsTrimmed(r)
    ensures |r| <= |s|
  {
    var t := TrimStart(s);
    var r := TrimEnd(t);
    assert |r| > 0 ==> r[0] == t[0];
    r
  }

  /** What `trim` removes is white space at the two ends, nothing else. */
  lemma TrimStrips(s: string)
    ensures exists a :: StrippedFrom(s, Trim(s), a)
  {
    StripBothEnds(s);
    assert Trim(s) == TrimEnd(TrimStart(s));
  }

  lemma TrimOfTrimmed(s: string)
    requires IsTrimmed(s)
    ensures Trim(s) == s
  {
  }

  /** A string that trims to nothing is all white space. */
  lemma BlankIsWhiteSpace(s: string)
    requires Trim(s) == ""
    ensures AllWhiteSpace(s)
  {
    TrimStrips(s);
    var a :| StrippedFrom(s, Trim(s), a);
    forall i | 0 <= i < |s| ensures IsWhiteSpace(s[i]) {
      if i < a {
        assert s[..a][i] == s[i];
      } else {
        assert s[a..][i - a] == s[i];
      }
    }
  }

  lemma {:induction false} TrimStartOfWhiteSpace(s: string)
    requires AllWhiteSpace(s)
    ensures TrimStart(s) == ""
    decreases |s|
  {
    if |s| > 0 {
      assert IsWhiteSpace(s[0]);
      assert forall i :: 0 <= i < |s| - 1 ==> s[1..][i] == s[i + 1];
      TrimStartOfWhiteSpace(s[1..]);
    }
  }

  /** A string of white space trims to nothing. */
  lemma WhiteSpaceTrimsAway(s: string)
    requires AllWhiteSpace(s)
    ensures Trim(s) == ""
  {
    TrimStartOfWhiteSpace(s);
  }

  /** Trimming twice is trimming once. */
  lemma TrimIdempotent(s: string)
    ensures Trim(Trim(s)) == Trim(s)
  {
    TrimOfTrimmed(Trim(s));
  }

  /** `s.split(d)` for a one-character separator: always at least one field,
      none containing the separator. */
  function Split(s: string, d: char): (r: seq<string>)
    ensures |r| >= 1
    ensures forall k :: 0 <= k < |r| ==> d !in r[k]
    decreases |s|
  {
    if |s| == 0 then
      [""]
    else
      var rest := Split(s[1..], d);
      if s[0] == d then [""] + rest else [[s[0]] + rest[0]] + rest[1..]
  }

  /** Every character of `s` other than the separator lies in some field. */
  lemma {:induction false} CharInSomeField(s: string, d: char, i: nat)
    requires i < |s| && s[i] != d
    ensures exists k :: 0 <= k < |Split(s, d)| && s[i] in Split(s, d)[k]
    decreases |s|
  {
    var rest := Split(s[1..], d);
    if i == 0 {
      assert Split(s, d)[0] == [s[0]] + rest[0];
    } else {
      CharInSomeField(s[1..], d, i - 1);
      assert s[1..][i - 1] == s[i];
      var k :| 0 <= k < |rest| && s[i] in rest[k];
      if s[0] == d {
        assert Split(s, d)[k + 1] == rest[k];
      } else if k == 0 {
        assert Split(s, d)[0] == [s[0]] + rest[0];
      } else {
        assert Split(s, d)[k] == rest[k];
      }
    }
  }

  /** Every character of a field is a character of `s`. */
  lemma {:induction false} FieldCharInText(s: string, d: char, k: nat, c: char)
    requires k < |Split(s, d)| && c in Split(s, d)[k]
    ensures c in s
    decreases |s|
  {
    if |s| > 0 {
      var rest := Split(s[1..], d);
      assert s == [s[0]] + s[1..];
      if s[0] == d {
        if k > 0 {
          assert Split(s, d)[k] == rest[k - 1];
          FieldCharInText(s[1..], d, k - 1, c);
        }
      } else if k == 0 {
        if c != s[0] {
          assert Split(s, d)[0] == [s[0]] + rest[0];
          FieldCharInText(s[1..], d, 0, c);
        }
      } else {
        assert Split(s, d)[k] == rest[k];
        FieldCharInText(s[1..], d, k, c);
      }
    }
  }

  /** The summed length of the fields. */
  function TotalLength(ls: seq<string>): nat
    decreases |ls|
  {
    if |ls| == 0 then 0 else |ls[0]| + TotalLength(ls[1..])
  }

  /** `ls.join(d)`: the characters other than the separator are exactly
      those of the fields, and the fields are glued with one separator
      between each two neighbours. */
  function Join(ls: seq<string>, d: char): (r: string)
    ensures |ls| == 0 ==> r == ""
    ensures forall c :: c != d ==> (c in r <==> exists k :: 0 <= k < |ls| && c in ls[k])
    ensures |ls| > 0 ==> |r| == TotalLength(ls) + |ls| - 1
    decreases |ls|
  {
    if |ls| == 0 then ""
    else if |ls| == 1 then ls[0]
    else
      var rest := Join(ls[1..], d);
      assert forall k :: 1 <= k < |ls| ==> ls[k] == ls[1..][k - 1];
      ls[0] + [d] + rest
  }

  lemma JoinCons(x: string, rest: seq<string>, d: char)
    requires |rest| > 0
    ensures Join([x] + rest, d) == x + [d] + Join(rest, d)
  {
    assert ([x] + rest)[1..] == rest;
  }

  /** Splitting and joining again gives back the original text. */
  lemma {:induction false} JoinSplit(s: string, d: char)
    ensures Join(Split(s, d), d) == s
    decreases |s|
  {
    if |s| > 0 {
      var rest := Split(s[1..], d);
      JoinSplit(s[1..], d);
      assert s == [s[0]] + s[1..];
      if s[0] == d {
        assert Split(s, d) == [""] + rest;
        JoinCons("", rest, d);
      } else {
        var ls := [[s[0]] + rest[0]] + rest[1..];
        assert Split(s, d) == ls;
        if |rest| == 1 {
          assert Join(ls, d) == [s[0]] + rest[0];
          assert Join(rest, d) == rest[0];
        } else {
          assert rest == [rest[0]] + rest[1..];
          JoinCons(rest[0], rest[1..], d);
          JoinCons([s[0]] + rest[0], rest[1..], d);
        }
      }
    }
  }

  lemma {:induction false} SplitNoSeparator(a: string, d: char)
    requires d !in a
    ensures Split(a, d) == [a]
    decreases |a|
  {
    if |a| > 0 {
      SplitNoSeparator(a[1..], d);
      assert [a[0]] + a[1..] == a;
    }
  }

  lemma {:induction false} SplitField(a: string, d: char, t: string)
    requires d !in a
    ensures Split(a + [d] + t, d) == [a] + Split(t, d)
    decreases |a|
  {
    var s := a + [d] + t;
    if |a| == 0 {
      assert s[0] == d && s[1..] == t;
    } else {
      assert s[0] == a[0];
      assert s[1..] == a[1..] + [d] + t;
      SplitField(a[1..], d, t);
      assert [a[0]] + a[1..] == a;
    }
  }

  /** Joining fields that do not contain the separator and splitting again
      gives back the fields (an empty list joins to "", which splits to [""]). */
  lemma {:induction false} SplitJoin(ls: seq<string>, d: char)
    requires |ls| > 0
    requires forall k :: 0 <= k < |ls| ==> d !in ls[k]
    ensures Split(Join(ls, d), d) == ls
    decreases |ls|
  {
    if |ls| == 1 {
      SplitNoSeparator(ls[0], d);
    } else {
      SplitJoin(ls[1..], d);
      SplitField(ls[0], d, Join(ls[1..], d));
      assert [ls[0]] + ls[1..] == ls;
    }
  }
}
