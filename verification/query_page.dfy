/** The pure list logic of the batch query page, app/api/logistics/page.tsx:
    normalising the pasted waybill text, building the initial result rows,
    carrier labels, folding finished rows into a capped history, changing one
    waybill's carrier, and re-querying one waybill. Component state is passed
    in and returned; each call to the query endpoint is an outcome
    parameter. */
module QueryPage {
  import opened Wrappers
  import opened Strings
  import L = Logistics
  import QueryRoute

  // ---------------------------------------------------------------------------
  // Sequence helpers

  function Map<T, U>(f: T -> U, s: seq<T>): (r: seq<U>)
    ensures |r| == |s|
    ensures forall k :: 0 <= k < |s| ==> r[k] == f(s[k])
  {
    seq(|s|, k requires 0 <= k < |s| => f(s[k]))
  }

  /** `r` is the subsequence of `s` made of the elements satisfying `f`: `idx`
      lists, in increasing order, the positions of `s` that `r` keeps, and
      every position whose element satisfies `f` is among them. */
  ghost predicate Selects<T>(f: T -> bool, s: seq<T>, r: seq<T>, idx: seq<nat>) {
    && |idx| == |r|
    && (forall k :: 0 <= k < |idx| ==> idx[k] < |s| && s[idx[k]] == r[k] && f(r[k]))
    && (forall k, l :: 0 <= k < l < |idx| ==> idx[k] < idx[l])
    && (forall j :: 0 <= j < |s| && f(s[j]) ==> j in idx)
  }

  /** Positions moved one place to the right. */
  function Shift(idx: seq<nat>): (r: seq<nat>)
    ensures |r| == |idx|
    ensures forall k :: 0 <= k < |idx| ==> r[k] == idx[k] + 1
  {
    seq(|idx|, k requires 0 <= k < |idx| => idx[k] + 1)
  }

  /** Selecting from `s[1..]`, seen as positions of `s`. */
  lemma SelectsShift<T>(f: T -> bool, s: seq<T>, rest: seq<T>, idx: seq<nat>)
    requires |s| > 0 && Selects(f, s[1..], rest, idx)
    ensures forall k :: 0 <= k < |idx| ==> Shift(idx)[k] < |s| && s[Shift(idx)[k]] == rest[k]
    ensures forall j :: 0 < j < |s| && f(s[j]) ==> j in Shift(idx)
  {
    var sh := Shift(idx);
    forall k | 0 <= k < |idx| ensures sh[k] < |s| && s[sh[k]] == rest[k] {
      assert s[1..][idx[k]] == s[idx[k] + 1];
    }
    forall j | 0 < j < |s| && f(s[j]) ensures j in sh {
      assert s[1..][j - 1] == s[j];
      assert j - 1 in idx;
      var k :| 0 <= k < |idx| && idx[k] == j - 1;
      assert sh[k] == j;
    }
  }

  /** One step of `filter` when the first element is dropped. */
  lemma SelectsSkip<T>(f: T -> bool, s: seq<T>, rest: seq<T>, idx: seq<nat>)
    requires |s| > 0 && Selects(f, s[1..], rest, idx) && !f(s[0])
    ensures Selects(f, s, rest, Shift(idx))
  {
    SelectsShift(f, s, rest, idx);
  }

  /** One step of `filter` when the first element is kept. */
  lemma SelectsKeep<T>(f: T -> bool, s: seq<T>, rest: seq<T>, idx: seq<nat>)
    requires |s| > 0 && Selects(f, s[1..], rest, idx) && f(s[0])
    ensures Selects(f, s, [s[0]] + rest, [0] + Shift(idx))
  {
    SelectsShift(f, s, rest, idx);
    KeepPositions(f, s, rest, Shift(idx));
    KeepOrdered(idx, Shift(idx));
    KeepComplete(f, s, Shift(idx));
  }

  lemma KeepPositions<T>(f: T -> bool, s: seq<T>, rest: seq<T>, sh: seq<nat>)
    requires |s| > 0 && f(s[0]) && |sh| == |rest|
    requires forall k :: 0 <= k < |sh| ==> sh[k] < |s| && s[sh[k]] == rest[k] && f(rest[k])
    ensures forall k :: 0 <= k < |sh| + 1 ==>
              ([0] + sh)[k] < |s| && s[([0] + sh)[k]] == ([s[0]] + rest)[k] && f(([s[0]] + rest)[k])
  {
    forall k | 0 <= k < |sh| + 1
      ensures ([0] + sh)[k] < |s| && s[([0] + sh)[k]] == ([s[0]] + rest)[k] && f(([s[0]] + rest)[k])
    {
      if k > 0 {
        assert ([0] + sh)[k] == sh[k - 1] && ([s[0]] + rest)[k] == rest[k - 1];
      }
    }
  }

  lemma KeepOrdered(idx: seq<nat>, sh: seq<nat>)
    requires |sh| == |idx| && forall k :: 0 <= k < |idx| ==> sh[k] == idx[k] + 1
    requires forall k, l :: 0 <= k < l < |idx| ==> idx[k] < idx[l]
    ensures forall k, l :: 0 <= k < l < |sh| + 1 ==> ([0] + sh)[k] < ([0] + sh)[l]
  {
    forall k, l | 0 <= k < l < |sh| + 1 ensures ([0] + sh)[k] < ([0] + sh)[l] {
      assert ([0] + sh)[l] == sh[l - 1];
      if k > 0 {
        assert ([0] + sh)[k] == sh[k - 1];
      }
    }
  }

  lemma KeepComplete<T>(f: T -> bool, s: seq<T>, sh: seq<nat>)
    requires |s| > 0
    requires forall j :: 0 < j < |s| && f(s[j]) ==> j in sh
    ensures forall j :: 0 <= j < |s| && f(s[j]) ==> j in [0] + sh
  {
    forall j | 0 <= j < |s| && f(s[j]) ensures j in [0] + sh {
      if j == 0 {
        assert ([0] + sh)[0] == 0;
      } else {
        var k :| 0 <= k < |sh| && sh[k] == j;
        assert ([0] + sh)[k + 1] == j;
      }
    }
  }

  lemma FilterStep<T>(f: T -> bool, s: seq<T>, rest: seq<T>, r: seq<T>)
    requires |s| > 0 && exists idx :: Selects(f, s[1..], rest, idx)
    requires r == if f(s[0]) then [s[0]] + rest else rest
    ensures exists idx :: Selects(f, s, r, idx)
  {
    var idx :| Selects(f, s[1..], rest, idx);
    if f(s[0]) {
      SelectsKeep(f, s, rest, idx);
    } else {
      SelectsSkip(f, s, rest, idx);
    }
  }

  /** `s.filter(f)`: the elements satisfying `f`, in order, each occurrence
      kept. */
  function Filter<T(==,!new)>(f: T -> bool, s: seq<T>): (r: seq<T>)
    ensures |r| <= |s|
    ensures forall k :: 0 <= k < |r| ==> f(r[k])
    ensures forall x :: x in r <==> x in s && f(x)
    decreases |s|
  {
    if |s| == 0 then []
    else
      var rest := Filter(f, s[1..]);
      if f(s[0]) then [s[0]] + rest else rest
  }

  /** The filtered sequence is the subsequence of `s` made of exactly the
      positions whose element satisfies `f`. */
  lemma {:induction false} FilterSelects<T(!new)>(f: T -> bool, s: seq<T>)
    ensures exists idx :: Selects(f, s, Filter(f, s), idx)
    decreases |s|
  {
    if |s| == 0 {
      assert Filter(f, s) == [];
      assert Selects(f, s, [], []);
    } else {
      FilterSelects(f, s[1..]);
      FilterStep(f, s, Filter(f, s[1..]), Filter(f, s));
    }
  }

  /** The first position of a kept element in `s` is the position its first
      copy in the filtered sequence was taken from. */
  lemma FilterFirstIndex<T>(f: T -> bool, s: seq<T>, r: seq<T>, idx: seq<nat>, x: T)
    requires Selects(f, s, r, idx) && x in r
    ensures x in s && FirstIndex(s, x) == idx[FirstIndex(r, x)]
  {
    var a := FirstIndex(r, x);
    var p := idx[a];
    FirstIndexUnique(s, x, p);
  }

  /** Filtering keeps the order of first occurrences. */
  lemma FilterFirstIndexOrder<T(!new)>(f: T -> bool, s: seq<T>, x: T, y: T)
    requires x in Filter(f, s) && y in Filter(f, s)
    requires FirstIndex(Filter(f, s), x) < FirstIndex(Filter(f, s), y)
    ensures x in s && y in s && FirstIndex(s, x) < FirstIndex(s, y)
  {
    FilterSelects(f, s);
    var idx :| Selects(f, s, Filter(f, s), idx);
    FilterFirstIndex(f, s, Filter(f, s), idx, x);
    FilterFirstIndex(f, s, Filter(f, s), idx, y);
  }

  lemma {:induction false} FilterKeepsAll<T(!new)>(f: T -> bool, s: seq<T>)
    requires forall k :: 0 <= k < |s| ==> f(s[k])
    ensures Filter(f, s) == s
    decreases |s|
  {
    if |s| > 0 {
      FilterKeepsAll(f, s[1..]);
    }
  }

  lemma {:induction false} FilterAppendRejected<T(!new)>(f: T -> bool, s: seq<T>, x: T)
    requires !f(x)
    ensures Filter(f, s + [x]) == Filter(f, s)
    decreases |s|
  {
    if |s| == 0 {
      assert [x][1..] == [];
    } else {
      assert (s + [x])[0] == s[0] && (s + [x])[1..] == s[1..] + [x];
      FilterAppendRejected(f, s[1..], x);
    }
  }

  predicate Distinct<T(==)>(s: seq<T>) {
    forall i, j :: 0 <= i < j < |s| ==> s[i] != s[j]
  }

  /** Index of the first occurrence of `x` in `s`. */
  function FirstIndex<T(==)>(s: seq<T>, x: T): (i: nat)
    requires x in s
    ensures i < |s| && s[i] == x
    ensures forall k :: 0 <= k < i ==> s[k] != x
    decreases |s|
  {
    if s[0] == x then 0
    else
      var j := FirstIndex(s[1..], x);
      assert forall k :: 1 <= k <= j ==> s[k] == s[1..][k - 1];
      1 + j
  }

  lemma FirstIndexUnique<T>(s: seq<T>, x: T, i: nat)
    requires i < |s| && s[i] == x
    requires forall k :: 0 <= k < i ==> s[k] != x
    ensures FirstIndex(s, x) == i
  {
  }

  /** `Array.from(new Set(s))`: each distinct element once, at the place of
      its first occurrence. */
  function Dedup<T(==,!new)>(s: seq<T>): (r: seq<T>)
    ensures forall x :: x in r <==> x in s
    ensures Distinct(r)
    ensures forall i, j :: 0 <= i < j < |r| ==> FirstIndex(s, r[i]) < FirstIndex(s, r[j])
    decreases |s|
  {
    if |s| == 0 then []
    else
      var p := s[..|s| - 1];
      var last := s[|s| - 1];
      var r := Dedup(p);
      assert s == p + [last];
      forall x | x in p ensures FirstIndex(s, x) == FirstIndex(p, x) {
        FirstIndexUnique(s, x, FirstIndex(p, x));
      }
      if last in r then
        r
      else
        FirstIndexUnique(s, last, |s| - 1);
        r + [last]
  }

  lemma {:induction false} DedupOfDistinct<T(!new)>(s: seq<T>)
    requires Distinct(s)
    ensures Dedup(s) == s
    decreases |s|
  {
    if |s| > 0 {
      var p := s[..|s| - 1];
      DedupOfDistinct(p);
      assert s[|s| - 1] !in p;
      assert p + [s[|s| - 1]] == s;
    }
  }

  // ---------------------------------------------------------------------------
  // Waybill text

  predicate NonEmpty(line: string) {
    line != ""
  }

  predicate NonBlank(line: string) {
    Trim(line) != ""
  }

  /** A line as the text box holds it after normalisation. */
  predicate CleanLine(line: string) {
    line != "" && IsTrimmed(line) && '\n' !in line
  }

  predicate CleanLines(ls: seq<string>) {
    forall k :: 0 <= k < |ls| ==> CleanLine(ls[k])
  }

  function Lines(text: string): seq<string> {
    Split(text, '\n')
  }

  /** Every line trimmed. */
  function TrimAll(ls: seq<string>): (r: seq<string>)
    ensures |r| == |ls|
    ensures forall k :: 0 <= k < |ls| ==> r[k] == Trim(ls[k])
  {
    seq(|ls|, k requires 0 <= k < |ls| => Trim(ls[k]))
  }

  /** The lines of `text`, each trimmed. */
  function TrimmedLines(text: string): seq<string> {
    TrimAll(Lines(text))
  }

  lemma TrimKeepsOut(s: string, c: char)
    requires c !in s
    ensures c !in Trim(s)
  {
    TrimStrips(s);
    var a :| StrippedFrom(s, Trim(s), a);
    InfixKeepsOut(s, Trim(s), a, c);
  }

  lemma InfixKeepsOut(s: string, r: string, a: int, c: char)
    requires c !in s && 0 <= a <= |s| - |r| && s[a..a + |r|] == r
    ensures c !in r
  {
    forall k | 0 <= k < |r| ensures r[k] != c {
      assert r[k] == s[a + k];
    }
  }

  /** A list drawn from the non-empty trimmed lines of a text is clean. */
  lemma CleanIfDrawnFrom(ls: seq<string>, text: string)
    requires forall x :: x in ls ==> x != "" && x in TrimmedLines(text)
    ensures CleanLines(ls)
  {
    forall k | 0 <= k < |ls| ensures CleanLine(ls[k]) {
      assert ls[k] in ls;
      var j := FirstIndex(TrimmedLines(text), ls[k]);
      TrimKeepsOut(Lines(text)[j], '\n');
    }
  }

  /** Trimming two lists with the same elements gives lists with the same
      elements. */
  lemma TrimSameElements(a: seq<string>, b: seq<string>)
    requires forall y :: y in a <==> y in b
    ensures forall x :: x in TrimAll(a) <==> x in TrimAll(b)
  {
    forall x | x in TrimAll(a) ensures x in TrimAll(b) {
      var i := FirstIndex(TrimAll(a), x);
      var j := FirstIndex(b, a[i]);
      assert TrimAll(b)[j] == x;
    }
    forall x | x in TrimAll(b) ensures x in TrimAll(a) {
      var i := FirstIndex(TrimAll(b), x);
      var j := FirstIndex(a, b[i]);
      assert TrimAll(a)[j] == x;
    }
  }

  /** Position `j` of `ls` holds the first copy of its line. */
  predicate FirstCopy(ls: seq<string>, j: int) {
    0 <= j < |ls| && forall k :: 0 <= k < j ==> ls[k] != ls[j]
  }

  /** `r` is, in order, the trimmed form of the first copy of each raw line
      of `ls` whose trimmed form is not empty: `src` lists the positions of
      those first copies, increasing, and leaves none of them out. Later
      copies of a raw line are never kept. */
  ghost predicate KeptFirstCopies(r: seq<string>, ls: seq<string>, src: seq<nat>) {
    && |src| == |r|
    && (forall k :: 0 <= k < |src| ==> FirstCopy(ls, src[k]) && r[k] == Trim(ls[src[k]]))
    && (forall k, l :: 0 <= k < l < |src| ==> src[k] < src[l])
    && (forall j :: FirstCopy(ls, j) && Trim(ls[j]) != "" ==> j in src)
  }

  /** The first position in `ls` of each element `idx` picks from `d`. */
  ghost function FirstPositions(ls: seq<string>, d: seq<string>, idx: seq<nat>): (src: seq<nat>)
    requires forall x :: x in d ==> x in ls
    requires forall k :: 0 <= k < |idx| ==> idx[k] < |d|
    ensures |src| == |idx|
    ensures forall k :: 0 <= k < |idx| ==> src[k] == FirstIndex(ls, d[idx[k]])
    decreases |idx|
  {
    if |idx| == 0 then []
    else
      var rest := FirstPositions(ls, d, idx[1..]);
      [FirstIndex(ls, d[idx[0]])] + rest
  }

  lemma AsWrittenKeepsFirstCopies(ls: seq<string>, d: seq<string>, t: seq<string>, r: seq<string>)
    requires d == Dedup(ls) && t == TrimAll(d) && r == Filter(NonEmpty, t)
    ensures exists src :: KeptFirstCopies(r, ls, src)
  {
    FilterSelects(NonEmpty, t);
    var idx :| Selects(NonEmpty, t, r, idx);
    var src := FirstPositions(ls, d, idx);
    KeptAreFirstCopies(ls, d, t, r, idx, src);
    KeptInOrder(ls, d, idx, src);
    KeptAllFirstCopies(ls, d, t, idx, src);
    assert KeptFirstCopies(r, ls, src);
  }

  lemma KeptAreFirstCopies(ls: seq<string>, d: seq<string>, t: seq<string>, r: seq<string>, idx: seq<nat>, src: seq<nat>)
    requires forall x :: x in d ==> x in ls
    requires t == TrimAll(d) && |idx| == |r| == |src|
    requires forall k :: 0 <= k < |idx| ==> idx[k] < |t| && t[idx[k]] == r[k]
    requires forall k :: 0 <= k < |idx| ==> src[k] == FirstIndex(ls, d[idx[k]])
    ensures forall k :: 0 <= k < |src| ==> FirstCopy(ls, src[k]) && r[k] == Trim(ls[src[k]])
  {
  }

  lemma KeptInOrder(ls: seq<string>, d: seq<string>, idx: seq<nat>, src: seq<nat>)
    requires d == Dedup(ls) && |idx| == |src|
    requires forall k :: 0 <= k < |idx| ==> idx[k] < |d|
    requires forall k, l :: 0 <= k < l < |idx| ==> idx[k] < idx[l]
    requires forall k :: 0 <= k < |idx| ==> src[k] == FirstIndex(ls, d[idx[k]])
    ensures forall k, l :: 0 <= k < l < |src| ==> src[k] < src[l]
  {
    forall k, l | 0 <= k < l < |src| ensures src[k] < src[l] {
      assert idx[k] < idx[l];
    }
  }

  lemma KeptAllFirstCopies(ls: seq<string>, d: seq<string>, t: seq<string>, idx: seq<nat>, src: seq<nat>)
    requires d == Dedup(ls) && t == TrimAll(d) && |idx| == |src|
    requires forall j :: 0 <= j < |t| && NonEmpty(t[j]) ==> j in idx
    requires forall k :: 0 <= k < |idx| ==> idx[k] < |d|
    requires forall k :: 0 <= k < |idx| ==> src[k] == FirstIndex(ls, d[idx[k]])
    ensures forall j :: FirstCopy(ls, j) && Trim(ls[j]) != "" ==> j in src
  {
    forall j | FirstCopy(ls, j) && Trim(ls[j]) != "" ensures j in src {
      assert ls[j] in d;
      var p := FirstIndex(d, ls[j]);
      assert NonEmpty(t[p]);
      var k :| 0 <= k < |idx| && idx[k] == p;
      FirstIndexUnique(ls, ls[j], j);
      assert src[k] == j;
    }
  }

  /** The text box normalisation as the code does it: remove duplicate raw
      lines, then trim each, then drop the empty ones. The waybills kept are
      the non-empty trimmed lines, but not necessarily once each: the first
      copy of each raw line is kept, in order, and two raw lines that differ
      only in surrounding blanks both survive. */
  function NormaliseAsWritten(text: string): (r: seq<string>)
    ensures CleanLines(r)
    ensures forall x :: x in r <==> x != "" && x in TrimmedLines(text)
    ensures exists src :: KeptFirstCopies(r, Lines(text), src)
  {
    var unique := Dedup(Lines(text));
    TrimSameElements(unique, Lines(text));
    var r := Filter(NonEmpty, TrimAll(unique));
    CleanIfDrawnFrom(r, text);
    AsWrittenKeepsFirstCopies(Lines(text), unique, TrimAll(unique), r);
    r
  }

  /** Clean lines joined with line breaks split back into the same lines. */
  lemma LinesOfJoin(ls: seq<string>)
    requires CleanLines(ls)
    ensures Lines(Join(ls, '\n')) == ls || (Join(ls, '\n') == "" && ls == [])
  {
    if |ls| > 0 {
      SplitJoin(ls, '\n');
    }
  }

  /** `handleWaybillChange` as written. */
  function HandleWaybillChangeAsWritten(text: string): (r: string)
    ensures Lines(r) == NormaliseAsWritten(text) || (r == "" && NormaliseAsWritten(text) == [])
  {
    var ls := NormaliseAsWritten(text);
    LinesOfJoin(ls);
    Join(ls, '\n')
  }

  /** The normalisation the comment above the handler describes ("remove
      duplicates and empty lines"): trim every line, drop the empty ones,
      then remove duplicates, so that each waybill appears once. */
  function Normalise(text: string): (r: seq<string>)
    ensures CleanLines(r)
    ensures Distinct(r)
    ensures forall x :: x in r <==> x != "" && x in TrimmedLines(text)
    ensures forall i, j :: 0 <= i < j < |r| ==>
              FirstIndex(TrimmedLines(text), r[i]) < FirstIndex(TrimmedLines(text), r[j])
  {
    var r := Dedup(Filter(NonEmpty, TrimmedLines(text)));
    CleanIfDrawnFrom(r, text);
    NormaliseOrder(TrimmedLines(text), r);
    r
  }

  /** Removing duplicates after filtering keeps the waybills in the order of
      their first trimmed occurrence. */
  lemma NormaliseOrder(t: seq<string>, r: seq<string>)
    requires r == Dedup(Filter(NonEmpty, t))
    ensures forall i, j :: 0 <= i < j < |r| ==> r[i] in t && r[j] in t && FirstIndex(t, r[i]) < FirstIndex(t, r[j])
  {
    forall i, j | 0 <= i < j < |r| ensures r[i] in t && r[j] in t && FirstIndex(t, r[i]) < FirstIndex(t, r[j]) {
      FilterFirstIndexOrder(NonEmpty, t, r[i], r[j]);
    }
  }

  /** `handleWaybillChange` with the duplicate removal moved after the
      trimming. */
  function HandleWaybillChange(text: string): (r: string)
    ensures Lines(r) == Normalise(text) || (r == "" && Normalise(text) == [])
  {
    var ls := Normalise(text);
    LinesOfJoin(ls);
    Join(ls, '\n')
  }

  /** Trimming clean lines changes nothing. */
  lemma TrimCleanLines(ls: seq<string>)
    requires CleanLines(ls)
    ensures TrimAll(ls) == ls
  {
    forall k | 0 <= k < |ls| ensures Trim(ls[k]) == ls[k] {
      TrimOfTrimmed(ls[k]);
    }
  }

  /** Clean, distinct lines joined and normalised again come back
      unchanged. */
  lemma NormaliseJoined(ls: seq<string>)
    requires CleanLines(ls) && Distinct(ls)
    ensures Normalise(Join(ls, '\n')) == ls
  {
    if |ls| == 0 {
      assert Lines("") == [""];
      assert TrimmedLines("") == [""];
    } else {
      SplitJoin(ls, '\n');
      TrimCleanLines(ls);
      FilterKeepsAll(NonEmpty, ls);
      DedupOfDistinct(ls);
    }
  }

  /** The text box is a fixed point of the normalisation: once normalised,
      the next change event leaves it as it is. */
  lemma HandleWaybillChangeIdempotent(text: string)
    ensures HandleWaybillChange(HandleWaybillChange(text)) == HandleWaybillChange(text)
  {
    NormaliseJoined(Normalise(text));
  }

  /** Split of a text with a line break appended: one more, empty, line. */
  lemma {:induction false} LinesAppendBreak(text: string)
    ensures Lines(text + "\n") == Lines(text) + [""]
    decreases |text|
  {
    if |text| == 0 {
      assert Lines("\n") == [""] + Lines("");
    } else {
      assert (text + "\n")[0] == text[0] && (text + "\n")[1..] == text[1..] + "\n";
      LinesAppendBreak(text[1..]);
    }
  }

  lemma NormaliseUnfold(text: string)
    ensures Normalise(text) == Dedup(Filter(NonEmpty, TrimmedLines(text)))
  {
  }

  lemma TrimmedLinesAppendBreak(text: string)
    ensures TrimmedLines(text + "\n") == TrimmedLines(text) + [""]
  {
    LinesAppendBreak(text);
    assert Trim("") == "";
  }

  /** Pressing Enter at the end of the text box changes nothing: the new
      empty line is dropped at once. */
  lemma TrailingBreakIsDropped(text: string)
    ensures HandleWaybillChange(text + "\n") == HandleWaybillChange(text)
  {
    NormaliseUnfold(text);
    NormaliseUnfold(text + "\n");
    TrimmedLinesAppendBreak(text);
    FilterAppendRejected(NonEmpty, TrimmedLines(text), "");
  }

  /** Removing duplicates from a list with one more element at its end. */
  lemma DedupAppend<T(!new)>(s: seq<T>, x: T)
    ensures Dedup(s + [x]) == if x in Dedup(s) then Dedup(s) else Dedup(s) + [x]
  {
    assert (s + [x])[..|s|] == s;
  }

  lemma TrimAllAppendEmpty(ls: seq<string>)
    ensures TrimAll(ls + [""]) == TrimAll(ls) + [""]
  {
    assert Trim("") == "";
  }

  /** The same holds for the handler as written: the empty line is either a
      repeat of an earlier raw line, and removed with the duplicates, or
      trimmed to nothing and dropped. */
  lemma TrailingBreakIsDroppedAsWritten(text: string)
    ensures HandleWaybillChangeAsWritten(text + "\n") == HandleWaybillChangeAsWritten(text)
  {
    var d := Dedup(Lines(text));
    AsWrittenUnfold(text);
    AsWrittenUnfold(text + "\n");
    LinesAppendBreak(text);
    DedupAppend(Lines(text), "");
    if "" !in d {
      TrimAllAppendEmpty(d);
      FilterAppendRejected(NonEmpty, TrimAll(d), "");
    }
  }

  /** A break typed between two different waybills is kept by the handler
      as written: the text already splits into two clean, distinct lines,
      which the normalisation leaves alone. */
  lemma BreakInsideLineSurvives(a: string, b: string)
    requires CleanLine(a) && CleanLine(b) && a != b
    ensures HandleWaybillChangeAsWritten(a + "\n" + b) == a + "\n" + b
  {
    AsWrittenUnfold(a + "\n" + b);
    DistinctPairSteps(a, b, a + "\n" + b);
    JoinTwo(a, b);
  }

  lemma DistinctPairSteps(a: string, b: string, text: string)
    requires CleanLine(a) && CleanLine(b) && a != b && text == a + "\n" + b
    ensures Filter(NonEmpty, TrimAll(Dedup(Lines(text)))) == [a, b]
  {
    LinesOfTwo(a, b);
    CleanPairNormalises(a, b, Lines(text));
  }

  lemma CleanPairNormalises(a: string, b: string, ls: seq<string>)
    requires CleanLine(a) && CleanLine(b) && a != b && ls == [a, b]
    ensures Filter(NonEmpty, TrimAll(Dedup(ls))) == [a, b]
  {
    DedupDistinctPair(a, b);
    TrimPairOfClean(a, b, TrimAll([a, b]));
    FilterKeepsAll(NonEmpty, [a, b]);
  }

  lemma DedupDistinctPair(a: string, b: string)
    requires a != b
    ensures Dedup([a, b]) == [a, b]
  {
    DedupOfDistinct([a, b]);
  }

  lemma TrimPairOfClean(a: string, b: string, m: seq<string>)
    requires CleanLine(a) && CleanLine(b) && m == TrimAll([a, b])
    ensures m == [a, b]
  {
    TrimOfTrimmed(a);
    TrimOfTrimmed(b);
    PairOf(m, a, b);
  }

  /** Two lines without breaks, joined by one. */
  lemma LinesOfTwo(a: string, b: string)
    requires '\n' !in a && '\n' !in b
    ensures Lines(a + "\n" + b) == [a, b]
  {
    assert a + "\n" + b == a + ['\n'] + b;
    SplitField(a, '\n', b);
    SplitNoSeparator(b, '\n');
  }

  /** A space in front of a clean line is trimmed away. */
  lemma TrimLeadingSpace(w: string)
    requires CleanLine(w)
    ensures Trim(" " + w) == w
  {
    var s := " " + w;
    assert s[1..] == w;
    assert TrimStart(s) == TrimStart(w) == w;
    TrimOfTrimmed(w);
  }

  lemma LinesOfPadded(w: string, text: string)
    requires CleanLine(w) && text == w + "\n" + (" " + w)
    ensures Lines(text) == [w, " " + w]
  {
    assert '\n' !in " " + w;
    LinesOfTwo(w, " " + w);
  }

  /** The trimmed list is named by a parameter so that the solver handles
      the sequence comprehension behind `TrimAll` once, as a value; stated
      directly in the conclusion this proof is unstable. */
  lemma TrimBoth(w: string, m: seq<string>)
    requires CleanLine(w) && m == TrimAll([w, " " + w])
    ensures m == [w, w]
  {
    TrimOfTrimmed(w);
    TrimLeadingSpace(w);
    PairOf(m, w, w);
  }

  lemma PairOf<T>(m: seq<T>, x: T, y: T)
    requires |m| == 2 && m[0] == x && m[1] == y
    ensures m == [x, y]
  {
  }

  /** As `TrimBoth`, for a single line. */
  lemma TrimSingle(w: string, m: seq<string>)
    requires CleanLine(w) && m == TrimAll([w])
    ensures m == [w]
  {
    assert m == [Trim(w)];
    TrimOfTrimmed(w);
  }

  lemma DedupPair(w: string)
    ensures Dedup([w, w]) == [w]
  {
    assert [w, w][..1] == [w];
    DedupOfDistinct([w]);
  }

  lemma DedupPadded(w: string)
    ensures Dedup([w, " " + w]) == [w, " " + w]
  {
    assert |w| != |" " + w|;
    DedupOfDistinct([w, " " + w]);
  }

  lemma AsWrittenUnfold(text: string)
    ensures NormaliseAsWritten(text) == Filter(NonEmpty, TrimAll(Dedup(Lines(text))))
  {
  }

  lemma PaddedPairSteps(w: string, text: string)
    requires CleanLine(w) && text == w + "\n" + (" " + w)
    ensures Filter(NonEmpty, TrimAll(Dedup(Lines(text)))) == [w, w]
  {
    LinesOfPadded(w, text);
    DedupPadded(w);
    TrimBoth(w, TrimAll([w, " " + w]));
    FilterKeepsAll(NonEmpty, [w, w]);
  }

  lemma AsWrittenFirstPass(w: string)
    requires CleanLine(w)
    ensures NormaliseAsWritten(w + "\n" + (" " + w)) == [w, w]
  {
    AsWrittenUnfold(w + "\n" + (" " + w));
    PaddedPairSteps(w, w + "\n" + (" " + w));
  }

  lemma AsWrittenSecondPass(w: string)
    requires CleanLine(w)
    ensures NormaliseAsWritten(w + "\n" + w) == [w]
  {
    assert Lines(w + "\n" + w) == [w, w] by { LinesOfTwo(w, w); }
    DedupPair(w);
    TrimSingle(w, TrimAll([w]));
    FilterKeepsAll(NonEmpty, [w]);
  }

  lemma PaddedPairCorrectedSteps(w: string, text: string)
    requires CleanLine(w) && text == w + "\n" + (" " + w)
    ensures Dedup(Filter(NonEmpty, TrimmedLines(text))) == [w]
  {
    LinesOfPadded(w, text);
    TrimBoth(w, TrimmedLines(text));
    FilterKeepsAll(NonEmpty, [w, w]);
    DedupPair(w);
  }

  /** The corrected normalisation keeps one copy. */
  lemma CorrectedKeepsOne(w: string)
    requires CleanLine(w)
    ensures Normalise(w + "\n" + (" " + w)) == [w]
  {
    NormaliseUnfold(w + "\n" + (" " + w));
    PaddedPairCorrectedSteps(w, w + "\n" + (" " + w));
  }

  /** The text the as-written handler produces can hold the same waybill
      twice: duplicates are removed before trimming, so a waybill and the
      same waybill typed after a space both survive. The next change event
      then rewrites the text again; the corrected normalisation keeps one
      copy at once. */
  lemma TrimmedDuplicateSurvives(w: string)
    requires CleanLine(w)
    ensures var text := w + "\n" + (" " + w);
            && NormaliseAsWritten(text) == [w, w]
            && HandleWaybillChangeAsWritten(text) == w + "\n" + w
            && HandleWaybillChangeAsWritten(w + "\n" + w) == w
            && Normalise(text) == [w]
  {
    AsWrittenFirstPass(w);
    JoinTwo(w, w);
    AsWrittenSecondPass(w);
    JoinOne(w);
    CorrectedKeepsOne(w);
  }

  lemma JoinTwo(a: string, b: string)
    ensures Join([a, b], '\n') == a + "\n" + b
  {
    assert [a, b][1..] == [b];
  }

  lemma JoinOne(a: string)
    ensures Join([a], '\n') == a
  {
  }

  // ---------------------------------------------------------------------------
  // Rows

  datatype CourierOption = CourierOption(value: string, name: string)

  /** The carrier drop-down: system code and display name. */
  const CourierOptions: seq<CourierOption> := [
    CourierOption("SF", "顺丰速运"),
    CourierOption("YTO", "圆通快递"),
    CourierOption("ZTO", "中通快递"),
    CourierOption("Yunda", "韵达快递"),
    CourierOption("TTKDEX", "天天快递"),
    CourierOption("JD", "京东物流"),
    CourierOption("Cainiao", "菜鸟驿站")
  ]

  const UnknownLabel := "未知"
  const QueryingText := "查询中"
  const QueryFailedText := "查询失败"
  const NetworkErrorMessage := "网络异常"
  const HistoryLimit := 20

  /** `options.find(opt => opt.value === code)?.label`: the label of the
      first option with the code. */
  function FindLabel(options: seq<CourierOption>, code: string): (r: Option<string>)
    ensures r.Some? <==> exists k :: 0 <= k < |options| && options[k].value == code
    ensures r.Some? ==> exists k :: 0 <= k < |options| && options[k] == CourierOption(code, r.value)
    decreases |options|
  {
    if |options| == 0 then None
    else if options[0].value == code then Some(options[0].name)
    else
      var r := FindLabel(options[1..], code);
      assert forall k :: 1 <= k < |options| ==> options[k] == options[1..][k - 1];
      r
  }

  /** `find` stops at the first option with the code. */
  lemma {:induction false} FindLabelFirstMatch(options: seq<CourierOption>, code: string)
    ensures FindLabel(options, code).Some? ==>
              exists k :: 0 <= k < |options| && options[k] == CourierOption(code, FindLabel(options, code).value)
                          && forall j :: 0 <= j < k ==> options[j].value != code
    decreases |options|
  {
    if |options| > 0 && options[0].value != code {
      FindLabelFirstMatch(options[1..], code);
      if FindLabel(options, code).Some? {
        var k :| 0 <= k < |options[1..]| && options[1..][k] == CourierOption(code, FindLabel(options, code).value)
                 && forall j :: 0 <= j < k ==> options[1..][j].value != code;
        assert options[k + 1] == options[1..][k];
        assert forall j :: 1 <= j < k + 1 ==> options[j] == options[1..][j - 1];
      }
    }
  }

  /** The display name of a carrier code, or "未知" for a code with no option. */
  function CourierLabel(code: string): (name: string)
    ensures name == UnknownLabel <==> code !in L.CourierCodeMapping
    ensures name != UnknownLabel ==> CourierOption(code, name) in CourierOptions
  {
    var found := FindLabel(CourierOptions, code);
    OptionCodesAreMappingKeys(code);
    assert found.Some? ==> found.value != UnknownLabel;
    found.GetOr(UnknownLabel)
  }

  /** The codes of the drop-down are the keys of the tracking client's
      mapping. */
  lemma OptionCodesAreMappingKeys(code: string)
    ensures (exists k :: 0 <= k < |CourierOptions| && CourierOptions[k].value == code) <==> code in L.CourierCodeMapping
  {
    var codes := ["SF", "YTO", "ZTO", "Yunda", "TTKDEX", "JD", "Cainiao"];
    assert forall k :: 0 <= k < |CourierOptions| ==> CourierOptions[k].value == codes[k];
    assert code in L.CourierCodeMapping <==> code in codes;
  }

  /** The drop-down offers exactly the carriers the tracking client maps. */
  lemma OptionsMatchMapping()
    ensures forall code :: code in L.CourierCodeMapping <==> exists k :: 0 <= k < |CourierOptions| && CourierOptions[k].value == code
  {
    forall code ensures code in L.CourierCodeMapping <==> FindLabel(CourierOptions, code).Some? {
      OptionMatchesMapping(code);
    }
  }

  /** `OptionsMatchMapping` for one code, through `CourierLabel`. */
  lemma OptionMatchesMapping(code: string)
    ensures code in L.CourierCodeMapping <==> FindLabel(CourierOptions, code).Some?
  {
    assert FindLabel(CourierOptions, code).Some? <==> CourierLabel(code) != UnknownLabel;
  }

  /** One row of the results table (`formattedTime` is left out). */
  datatype Item = Item(
    waybillNo: string,
    courierCode: string,
    courierLabel: string,
    status: string,
    statusTime: Option<L.Instant>,
    message: Option<string>)

  /** Every row's label is its carrier's label. */
  predicate LabelsConsistent(items: seq<Item>) {
    forall k :: 0 <= k < |items| ==> items[k].courierLabel == CourierLabel(items[k].courierCode)
  }

  function Waybills(items: seq<Item>): (ws: seq<string>)
    ensures |ws| == |items|
    ensures forall k :: 0 <= k < |items| ==> ws[k] == items[k].waybillNo
  {
    seq(|items|, k requires 0 <= k < |items| => items[k].waybillNo)
  }

  /** The rows of `buildRequestList`: one per non-blank line, trimmed, all on
      the default carrier and waiting for their answer. */
  function BuildRequestList(text: string, courier: string): (items: seq<Item>)
    ensures Waybills(items) == RequestLines(text)
    ensures LabelsConsistent(items)
    ensures forall k :: 0 <= k < |items| ==>
              && items[k].courierCode == courier
              && items[k].status == QueryingText
              && items[k].statusTime.None? && items[k].message.None?
  {
    NewItems(RequestLines(text), courier)
  }

  /** The waybills `buildRequestList` reads from the text box: the
      non-blank lines, trimmed. */
  function RequestLines(text: string): seq<string> {
    TrimAll(Filter(NonBlank, Lines(text)))
  }

  function NewItems(waybillNos: seq<string>, courier: string): (items: seq<Item>)
    ensures |items| == |waybillNos|
    ensures forall k :: 0 <= k < |items| ==> items[k] == NewItem(waybillNos[k], courier)
    ensures Waybills(items) == waybillNos
  {
    var items := seq(|waybillNos|, k requires 0 <= k < |waybillNos| => NewItem(waybillNos[k], courier));
    assert forall k :: 0 <= k < |items| ==> Waybills(items)[k] == waybillNos[k];
    items
  }

  /** A row waiting for its first answer. */
  function NewItem(waybillNo: string, courier: string): Item {
    Item(waybillNo, courier, CourierLabel(courier), QueryingText, None, None)
  }

  /** How `handleQuery` starts: a text box that trims to nothing is refused
      with an alert; otherwise the rows are built and shown. */
  datatype QueryStart = Refused | Started(items: seq<Item>)

  function StartQuery(text: string, courier: string): (r: QueryStart)
    ensures r.Refused? <==> Trim(text) == ""
    ensures r.Started? ==> r.items == BuildRequestList(text, courier)
  {
    if Trim(text) == "" then Refused else Started(BuildRequestList(text, courier))
  }

  /** A line holding a character that is not white space is not blank. */
  lemma NonWhiteLineIsNonBlank(line: string, c: char)
    requires c in line && !IsWhiteSpace(c)
    ensures NonBlank(line)
  {
    if Trim(line) == "" {
      BlankIsWhiteSpace(line);
    }
  }

  /** A character that is not white space makes its line non-blank. */
  lemma NonWhiteCharGivesNonBlankLine(text: string, a: int)
    requires 0 <= a < |text| && !IsWhiteSpace(text[a])
    ensures |Filter(NonBlank, Lines(text))| > 0
  {
    var lines := Lines(text);
    CharInSomeField(text, '\n', a);
    var k :| 0 <= k < |lines| && text[a] in lines[k];
    NonWhiteLineIsNonBlank(lines[k], text[a]);
    assert lines[k] in Filter(NonBlank, lines);
  }

  lemma NotAllWhiteSpaceHasNonBlankLine(text: string)
    requires !AllWhiteSpace(text)
    ensures |Filter(NonBlank, Lines(text))| > 0
  {
    var a :| 0 <= a < |text| && !IsWhiteSpace(text[a]);
    NonWhiteCharGivesNonBlankLine(text, a);
  }

  lemma NonBlankLineMeansNonBlankText(text: string)
    requires |Filter(NonBlank, Lines(text))| > 0
    ensures Trim(text) != ""
  {
    var lines := Lines(text);
    var line := Filter(NonBlank, lines)[0];
    assert line in lines && NonBlank(line);
    var k := FirstIndex(lines, line);
    if AllWhiteSpace(line) {
      WhiteSpaceTrimsAway(line);
    }
    var j :| 0 <= j < |line| && !IsWhiteSpace(line[j]);
    FieldCharInText(text, '\n', k, line[j]);
    NonWhiteLineIsNonBlank(text, line[j]);
  }

  /** The guard refuses exactly the texts that would give no rows: a query
      that starts always has at least one waybill to ask about. */
  lemma StartedExactlyWithRows(text: string, courier: string)
    ensures StartQuery(text, courier).Started? <==> |BuildRequestList(text, courier)| > 0
  {
    assert |BuildRequestList(text, courier)| == |Filter(NonBlank, Lines(text))|;
    if Trim(text) != "" {
      if AllWhiteSpace(text) {
        WhiteSpaceTrimsAway(text);
      }
      NotAllWhiteSpaceHasNonBlankLine(text);
    }
    if |Filter(NonBlank, Lines(text))| > 0 {
      NonBlankLineMeansNonBlankText(text);
    }
  }

  /** Rows built from normalised text are the normalised lines, in order. */
  lemma RowsOfCleanText(ls: seq<string>, courier: string)
    requires CleanLines(ls)
    ensures Waybills(BuildRequestList(Join(ls, '\n'), courier)) == ls
  {
    var text := Join(ls, '\n');
    if |ls| == 0 {
      assert Lines("") == [""];
      assert Trim("") == "";
      assert Filter(NonBlank, [""]) == [];
    } else {
      SplitJoin(ls, '\n');
      TrimCleanLines(ls);
      FilterKeepsAll(NonBlank, ls);
    }
  }

  /** The query rows are the normalised text box lines: each waybill once,
      trimmed, in order of first appearance. */
  lemma RowsFollowTextBox(text: string, courier: string)
    ensures Waybills(BuildRequestList(HandleWaybillChange(text), courier)) == Normalise(text)
    ensures Distinct(Waybills(BuildRequestList(HandleWaybillChange(text), courier)))
  {
    RowsOfCleanText(Normalise(text), courier);
  }

  /** With the handler as written the rows are likewise the lines left in the
      text box, in order; they need not be distinct, and for a waybill typed
      twice, once after a space, the same waybill is queried twice. */
  lemma RowsFollowTextBoxAsWritten(text: string, courier: string)
    ensures Waybills(BuildRequestList(HandleWaybillChangeAsWritten(text), courier)) == NormaliseAsWritten(text)
  {
    RowsOfCleanText(NormaliseAsWritten(text), courier);
  }

  lemma RowsRepeatAsWritten(w: string, courier: string)
    requires CleanLine(w)
    ensures Waybills(BuildRequestList(HandleWaybillChangeAsWritten(w + "\n" + (" " + w)), courier)) == [w, w]
  {
    RowsFollowTextBoxAsWritten(w + "\n" + (" " + w), courier);
    AsWrittenFirstPass(w);
  }

  /** What a call to the query endpoint gave the page: a parsed answer, or an
      error (the fetch failed or the body was not JSON). */
  datatype FetchOutcome = Received(response: QueryRoute.QueryResponse) | NetworkError

  /** A row once its query is answered. A successful answer fills in the
      status text and time and keeps the row's earlier message; a failed one
      shows "查询失败" with the endpoint's message; a fetch error, or a success
      with no data to read, shows "查询失败" with "网络异常". Every case spreads
      the row, so a failure keeps the row's earlier time. */
  function ItemAfterQuery(item: Item, outcome: FetchOutcome): (r: Item)
    ensures r.waybillNo == item.waybillNo && r.courierCode == item.courierCode
    ensures r.courierLabel == item.courierLabel
    ensures r.status != QueryFailedText ==>
              && outcome.Received? && outcome.response.success && outcome.response.data.Some?
              && r.status == outcome.response.data.value.statusText
              && r.statusTime == Some(outcome.response.data.value.statusTime)
              && r.message == item.message
    ensures outcome.Received? && outcome.response.success && outcome.response.data.Some? ==>
              r == item.(status := outcome.response.data.value.statusText,
                         statusTime := Some(outcome.response.data.value.statusTime))
    ensures outcome.Received? && outcome.response.success && outcome.response.data.None? ==>
              r == item.(status := QueryFailedText, message := Some(NetworkErrorMessage))
    ensures outcome.Received? && !outcome.response.success ==>
              r == item.(status := QueryFailedText, message := outcome.response.message)
    ensures outcome.NetworkError? ==> r == item.(status := QueryFailedText, message := Some(NetworkErrorMessage))
    ensures !(outcome.Received? && outcome.response.success && outcome.response.data.Some?) ==>
              r.statusTime == item.statusTime
  {
    match outcome
    case Received(response) =>
      if response.success && response.data.Some? then
        item.(status := response.data.value.statusText, statusTime := Some(response.data.value.statusTime))
      else if response.success then
        item.(status := QueryFailedText, message := Some(NetworkErrorMessage))
      else
        item.(status := QueryFailedText, message := response.message)
    case NetworkError =>
      item.(status := QueryFailedText, message := Some(NetworkErrorMessage))
  }

  /** Against the real endpoint, a row ends up with the display text of the
      tracked status exactly when the endpoint succeeded, and otherwise with
      "查询失败"; it never stays "查询中". */
  lemma RowShowsEndpointAnswer(item: Item, tracker: L.Tracker)
    ensures var response := QueryRoute.Post(QueryRoute.Json(Some(item.waybillNo), Some(item.courierCode)), tracker);
            var r := ItemAfterQuery(item, Received(response));
            && r.status != QueryingText
            && (response.success <==> r.status != QueryFailedText)
            && (response.success ==> r.status == QueryRoute.GetStatusText(response.data.value.status))
  {
    var response := QueryRoute.Post(QueryRoute.Json(Some(item.waybillNo), Some(item.courierCode)), tracker);
    if response.success {
      var s := response.data.value.status;
      assert QueryRoute.GetStatusText(s)[0] != QueryFailedText[0];
      assert QueryRoute.GetStatusText(s)[0] != QueryingText[0];
    }
  }

  /** The history after a batch: the new rows first, then the old history,
      cut to the 20 most recent. */
  function MergeHistory(results: seq<Item>, history: seq<Item>): (h: seq<Item>)
    ensures |h| <= HistoryLimit
    ensures |h| == if |results| + |history| < HistoryLimit then |results| + |history| else HistoryLimit
    ensures h == (results + history)[..|h|]
  {
    var all := results + history;
    if |all| <= HistoryLimit then all else all[..HistoryLimit]
  }

  /** A batch of up to 20 rows is kept whole at the front of the history, and
      an old entry survives exactly when it is among the first 20 - n. */
  lemma MergeKeepsNewest(results: seq<Item>, history: seq<Item>, k: nat)
    requires |results| <= HistoryLimit
    ensures MergeHistory(results, history)[..|results|] == results
    ensures k < |history| ==>
              (|results| + k < HistoryLimit <==> |results| + k < |MergeHistory(results, history)|)
    ensures |results| + k < |MergeHistory(results, history)| ==> MergeHistory(results, history)[|results| + k] == history[k]
  {
  }

  /** `handleCourierChange`: every row with this waybill moves to the new
      carrier and its label; the other rows stay as they are. */
  function HandleCourierChange(items: seq<Item>, waybillNo: string, courier: string): (r: seq<Item>)
    ensures |r| == |items|
    ensures Waybills(r) == Waybills(items)
    ensures forall k :: 0 <= k < |items| ==>
              if items[k].waybillNo == waybillNo then
                r[k] == items[k].(courierCode := courier, courierLabel := CourierLabel(courier))
              else r[k] == items[k]
  {
    var name := CourierLabel(courier);
    var r := Map((i: Item) => if i.waybillNo == waybillNo then i.(courierCode := courier, courierLabel := name) else i, items);
    assert Waybills(r) == Waybills(items);
    r
  }

  /** Changing a carrier keeps every row's label in step with its carrier. */
  lemma CourierChangeKeepsLabels(items: seq<Item>, waybillNo: string, courier: string)
    requires LabelsConsistent(items)
    ensures LabelsConsistent(HandleCourierChange(items, waybillNo, courier))
  {
  }

  /** The last carrier chosen for a waybill wins. */
  lemma CourierChangeLastWins(items: seq<Item>, waybillNo: string, c1: string, c2: string)
    ensures HandleCourierChange(HandleCourierChange(items, waybillNo, c1), waybillNo, c2)
            == HandleCourierChange(items, waybillNo, c2)
  {
  }

  /** Rows with this waybill replaced by `x`. */
  function Replace(items: seq<Item>, waybillNo: string, x: Item): (r: seq<Item>)
    ensures |r| == |items|
    ensures forall k :: 0 <= k < |items| ==> r[k] == if items[k].waybillNo == waybillNo then x else items[k]
  {
    Map((i: Item) => if i.waybillNo == waybillNo then x else i, items)
  }

  /** The table and the history after `reQueryItem`. */
  datatype Tables = Tables(queryList: seq<Item>, history: seq<Item>)

  /** Whether the re-query got as far as building the updated row: the
      answer arrived, parsed, and is either a failure or a success carrying
      data. Anything else throws inside the `try`. */
  predicate Answered(outcome: FetchOutcome) {
    outcome.Received? && (!outcome.response.success || outcome.response.data.Some?)
  }

  /** `reQueryItem`: mark the waybill's rows "查询中", ask the endpoint for
      `item`, then replace the waybill's rows, in the table and in the
      history, by `item` updated with the answer. When the fetch, the JSON
      decoding or the reading of the answer throws, only the table's rows
      are marked failed, each keeping its own fields, and the history is
      untouched. */
  function ReQueryItem(t: Tables, item: Item, outcome: FetchOutcome): (r: Tables)
    ensures |r.queryList| == |t.queryList| && |r.history| == |t.history|
    ensures Waybills(r.queryList) == Waybills(t.queryList) && Waybills(r.history) == Waybills(t.history)
    ensures forall k :: 0 <= k < |t.queryList| ==>
              r.queryList[k] == if t.queryList[k].waybillNo != item.waybillNo then t.queryList[k]
                                else if Answered(outcome) then ItemAfterQuery(item, outcome)
                                else t.queryList[k].(status := QueryFailedText, message := Some(NetworkErrorMessage))
    ensures forall k :: 0 <= k < |t.history| ==>
              r.history[k] == if Answered(outcome) && t.history[k].waybillNo == item.waybillNo
                              then ItemAfterQuery(item, outcome) else t.history[k]
  {
    var marked := Map((i: Item) => if i.waybillNo == item.waybillNo then i.(status := QueryingText, message := Some("")) else i,
                      t.queryList);
    if Answered(outcome) then
      var updated := ItemAfterQuery(item, outcome);
      var r := Tables(Replace(marked, item.waybillNo, updated), Replace(t.history, item.waybillNo, updated));
      assert Waybills(r.queryList) == Waybills(t.queryList);
      assert Waybills(r.history) == Waybills(t.history);
      r
    else
      var failed := Map((i: Item) => if i.waybillNo == item.waybillNo
                                     then i.(status := QueryFailedText, message := Some(NetworkErrorMessage))
                                     else i,
                        marked);
      assert Waybills(failed) == Waybills(t.queryList);
      Tables(failed, t.history)
  }

  /** Re-querying a row against the real endpoint leaves none of the
      waybill's rows showing "查询中", and when the answer is read, the table
      and the history show the same updated row for it. */
  lemma ReQueryAgainstEndpoint(t: Tables, item: Item, tracker: L.Tracker, k: nat, h: nat)
    requires k < |t.queryList| && t.queryList[k].waybillNo == item.waybillNo
    requires h < |t.history| && t.history[h].waybillNo == item.waybillNo
    ensures var response := QueryRoute.Post(QueryRoute.Json(Some(item.waybillNo), Some(item.courierCode)), tracker);
            var r := ReQueryItem(t, item, Received(response));
            && r.queryList[k].status != QueryingText
            && r.queryList[k] == r.history[h]
            && (response.success <==> r.queryList[k].status != QueryFailedText)
  {
    RowShowsEndpointAnswer(item, tracker);
  }
}
