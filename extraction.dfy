/**
 * Two clean-ups `extract_place_details` (scraper.py, lines 235-370) applies to
 * what a place page shows: the number of reviews read from a label such as
 * "1,234 reviews" (lines 259-267), and the opening hours cut into one line per
 * weekday (lines 309-322). The page itself is not part of this model: the
 * label texts are given.
 */
module Extraction {
  import opened Wrappers
  import opened Lists
  import opened Text
  import Stores

  // ---------------------------------------------------------------- the review count

  /** A character of the class `[\d,]`. */
  predicate IsCountChar(c: char) {
    IsDigit(c) || c == ','
  }

  /** The end of the longest run of `[\d,]` that starts at `i`. */
  function CountRunEnd(s: string, i: nat): (j: nat)
    requires i <= |s|
    ensures i <= j <= |s|
    ensures forall k :: i <= k < j ==> IsCountChar(s[k])
    ensures j == |s| || !IsCountChar(s[j])
    decreases |s| - i
  {
    if i < |s| && IsCountChar(s[i]) then CountRunEnd(s, i + 1) else i
  }

  /** The end of the white space (`\s*`) that starts at `i`. */
  function SpaceEnd(s: string, i: nat): (j: nat)
    requires i <= |s|
    ensures i <= j <= |s|
    ensures forall k :: i <= k < j ==> IsSpace(s[k])
    ensures j == |s| || !IsSpace(s[j])
    decreases |s| - i
  {
    if i < |s| && IsSpace(s[i]) then SpaceEnd(s, i + 1) else i
  }

  /** Whether `([\d,]+)\s*review` matches at `p`. Neither repetition ever gives anything
      back: a shorter run would leave a digit or a comma where the white space or the
      "r" has to be. */
  predicate ReviewMatchAt(s: string, p: nat)
    requires p <= |s|
  {
    p < |s| && IsCountChar(s[p]) && "review" <= s[SpaceEnd(s, CountRunEnd(s, p))..]
  }

  /** `re.search` from position `p`: the leftmost position where the pattern matches. */
  function SearchReview(s: string, p: nat): (r: Option<nat>)
    requires p <= |s|
    ensures r.Some? ==> p <= r.value <= |s| && ReviewMatchAt(s, r.value)
    ensures r.Some? ==> forall k :: p <= k < r.value ==> !ReviewMatchAt(s, k)
    ensures r.None? ==> forall k :: p <= k <= |s| ==> !ReviewMatchAt(s, k)
    decreases |s| - p
  {
    if ReviewMatchAt(s, p) then Some(p)
    else if p == |s| then None
    else
      var r := SearchReview(s, p + 1);
      assert r.None? ==> forall k :: p + 1 <= k <= |s| ==> !ReviewMatchAt(s, k);
      r
  }

  /** `group.replace(",", "")` */
  function DropCommas(s: string): (r: string)
    ensures (forall k :: 0 <= k < |s| ==> IsCountChar(s[k])) ==> AllDigits(r)
  {
    if s == [] then []
    else DropCommas(s[..|s| - 1]) + (if s[|s| - 1] == ',' then [] else [s[|s| - 1]])
  }

  /** `int(run.replace(",", ""))` for a run of `[\d,]`, with 0 for a run of commas only,
      where `int("")` fails and the failure is swallowed: the count is 0 exactly when the
      run holds nothing but commas and zeros. */
  function RunCount(run: string): (n: nat)
    requires forall k :: 0 <= k < |run| ==> IsCountChar(run[k])
    ensures n == DecimalValue(DropCommas(run))
    ensures n == 0 <==> OnlyZerosAndCommas(run)
  {
    var digits := DropCommas(run);
    DropCommasZeros(run);
    DecimalValueZero(digits);
    if digits == [] then 0 else DecimalValue(digits)
  }

  predicate OnlyZerosAndCommas(run: string) {
    forall k :: 0 <= k < |run| ==> run[k] == ',' || run[k] == '0'
  }

  /** The matched run of `[\d,]` of the first match. */
  function MatchedRun(caption: string, p: nat): (run: string)
    requires p <= |caption|
    ensures forall k :: 0 <= k < |run| ==> IsCountChar(run[k])
  {
    caption[p..CountRunEnd(caption, p)]
  }

  /** `total_reviews`: the number in the first match with its commas dropped; 0 when
      nothing matches or the matched run holds only commas and zeros. */
  function ReviewCount(caption: string): (r: nat)
    ensures SearchReview(caption, 0).None? ==> r == 0
    ensures SearchReview(caption, 0).Some? ==>
      r == DecimalValue(DropCommas(MatchedRun(caption, SearchReview(caption, 0).value)))
    ensures r == 0 <==> SearchReview(caption, 0).None? || OnlyZerosAndCommas(MatchedRun(caption, SearchReview(caption, 0).value))
  {
    match SearchReview(caption, 0)
    case None => 0
    case Some(p) => RunCount(MatchedRun(caption, p))
  }

  /** The digits left once the commas are dropped are all zeros exactly when the text
      held only commas and zeros. */
  lemma {:induction false} DropCommasZeros(s: string)
    ensures (forall k :: 0 <= k < |DropCommas(s)| ==> DropCommas(s)[k] == '0') <==> OnlyZerosAndCommas(s)
  {
    if s != [] {
      var init := s[..|s| - 1];
      var c := s[|s| - 1];
      DropCommasZeros(init);
      var tail := if c == ',' then [] else [c];
      var d := DropCommas(s);
      assert d == DropCommas(init) + tail;
      if OnlyZerosAndCommas(s) {
        assert OnlyZerosAndCommas(init) by {
          forall k | 0 <= k < |init|
            ensures init[k] == ',' || init[k] == '0'
          {
            assert init[k] == s[k];
          }
        }
        forall k | 0 <= k < |d|
          ensures d[k] == '0'
        {
          if k < |DropCommas(init)| {
            assert d[k] == DropCommas(init)[k];
          }
        }
      }
      if forall k :: 0 <= k < |d| ==> d[k] == '0' {
        forall k | 0 <= k < |DropCommas(init)|
          ensures DropCommas(init)[k] == '0'
        {
          assert d[k] == DropCommas(init)[k];
        }
        if c != ',' {
          assert d[|d| - 1] == c;
        }
        forall k | 0 <= k < |s|
          ensures s[k] == ',' || s[k] == '0'
        {
          if k < |init| {
            assert s[k] == init[k];
          }
        }
      }
    }
  }

  lemma {:induction false} DropCommasAppend(a: string, b: string)
    ensures DropCommas(a + b) == DropCommas(a) + DropCommas(b)
  {
    if b != [] {
      var n := |b| - 1;
      assert (a + b)[..|a| + n] == a + b[..n];
      DropCommasAppend(a, b[..n]);
      var last := if b[n] == ',' then [] else [b[n]];
      AppendAssoc(DropCommas(a), DropCommas(b[..n]), last);
    } else {
      assert a + b == a;
    }
  }

  lemma {:induction false} DropCommasDigits(s: string)
    requires AllDigits(s)
    ensures DropCommas(s) == s
  {
    if s != [] {
      DropCommasDigits(s[..|s| - 1]);
      assert s[..|s| - 1] + [s[|s| - 1]] == s;
    }
  }

  /** `CountRunEnd` stops at the first character outside `[\d,]`. */
  lemma {:induction false} CountRunStops(s: string, p: nat, m: nat)
    requires p <= m <= |s|
    requires forall k :: p <= k < m ==> IsCountChar(s[k])
    requires m == |s| || !IsCountChar(s[m])
    ensures CountRunEnd(s, p) == m
    decreases m - p
  {
    if p < m {
      CountRunStops(s, p + 1, m);
    }
  }

  /** A count run followed by " review" matches at its start. */
  lemma MatchesBeforeReview(s: string, m: nat)
    requires 0 < m && m + 7 <= |s|
    requires forall k :: 0 <= k < m ==> IsCountChar(s[k])
    requires s[m..m + 7] == " review"
    ensures SearchReview(s, 0) == Some(0) && CountRunEnd(s, 0) == m
  {
    assert s[m] == s[m..m + 7][0];
    assert s[m + 1] == s[m..m + 7][1];
    CountRunStops(s, 0, m);
    assert SpaceEnd(s, m + 1) == m + 1;
    assert s[m + 1..][..6] == s[m..m + 7][1..];
  }

  /** A thousands separator is read over: a label that starts "1,234 review" counts
      1234, whatever follows. */
  lemma ThousandsSeparatorDropped(a: string, b: string, rest: string)
    requires a != [] && AllDigits(a) && AllDigits(b)
    ensures ReviewCount(a + "," + b + " review" + rest) == DecimalValue(a + b)
  {
    var run := a + "," + b;
    var s := run + " review" + rest;
    var m := |run|;
    assert s[..m] == run;
    assert s[m..m + 7] == " review";
    forall k | 0 <= k < m
      ensures IsCountChar(s[k])
    {
      assert s[k] == run[k];
    }
    MatchesBeforeReview(s, m);
    assert DropCommas(",") == [] by {
      assert ","[..0] == [];
    }
    DropCommasAppend(a, ",");
    DropCommasDigits(a);
    assert DropCommas(a + ",") == a;
    DropCommasAppend(a + ",", b);
    DropCommasDigits(b);
    assert DropCommas(run) == a + b;
  }

  /** A run of commas before "reviews" matches but counts 0. */
  lemma CommasAloneCountZero()
    ensures ReviewCount(", reviews") == 0
  {
    var s := ", reviews";
    assert CountRunEnd(s, 1) == 1;
    assert SpaceEnd(s, 2) == 2;
    assert ReviewMatchAt(s, 0);
    assert s[0..1] == ",";
  }

  // ---------------------------------------------------------------- the opening hours

  const Weekdays: seq<string> := ["Monday", "Tuesday", "Wednesday", "Thursday", "Friday", "Saturday", "Sunday"]

  /** Whether one of `names` starts `t`. */
  predicate StartsWithOneOf(names: seq<string>, t: string) {
    names != [] && (names[0] <= t || StartsWithOneOf(names[1..], t))
  }

  /** The length of the first of `names` that starts `t`. */
  function MatchLength(names: seq<string>, t: string): (n: nat)
    requires StartsWithOneOf(names, t)
    ensures n <= |t|
  {
    if names[0] <= t then |names[0]| else MatchLength(names[1..], t)
  }

  /** A capital followed by lower-case letters. */
  predicate IsCapitalised(d: string) {
    d != [] && IsAsciiUpper(d[0]) && forall j :: 0 < j < |d| ==> IsAsciiLower(d[j])
  }

  /** When every name is capitalised, the text a name starts begins with a capital and
      goes on in lower case to the end of the name. */
  lemma {:induction false} MatchShape(names: seq<string>, t: string)
    requires StartsWithOneOf(names, t)
    requires forall k :: 0 <= k < |names| ==> IsCapitalised(names[k])
    ensures 0 < MatchLength(names, t) && IsAsciiUpper(t[0])
    ensures forall j :: 0 < j < MatchLength(names, t) ==> IsAsciiLower(t[j])
  {
    if names[0] <= t {
      assert IsCapitalised(names[0]);
      assert forall j :: 0 <= j < |names[0]| ==> t[j] == names[0][j];
    } else {
      assert forall k :: 0 <= k < |names| - 1 ==> names[1..][k] == names[k + 1];
      MatchShape(names[1..], t);
    }
  }

  /** A prefix that keeps the whole name still starts with it. */
  lemma {:induction false} MatchOnPrefix(names: seq<string>, t: string, u: string)
    requires StartsWithOneOf(names, t) && u <= t && MatchLength(names, t) <= |u|
    ensures StartsWithOneOf(names, u)
  {
    if names[0] <= t {
      assert u[..|names[0]|] == t[..|names[0]|];
    } else {
      MatchOnPrefix(names[1..], t, u);
    }
  }

  /** What a name starts, any extension of it starts too. */
  lemma {:induction false} MatchExtends(names: seq<string>, t: string, u: string)
    requires t <= u
    ensures StartsWithOneOf(names, t) ==> StartsWithOneOf(names, u)
  {
    if names != [] {
      if names[0] <= t {
        assert u[..|names[0]|] == t[..|names[0]|];
      }
      MatchExtends(names[1..], t, u);
    }
  }

  /** The lookahead `(?=Monday|Tuesday|...|Sunday)` holds at the start of `t`. */
  predicate StartsWithDay(t: string) {
    StartsWithOneOf(Weekdays, t)
  }

  /** The length of the weekday name that starts `t`. */
  function DayLength(t: string): nat
    requires StartsWithDay(t)
  {
    MatchLength(Weekdays, t)
  }

  lemma WeekdaysCapitalised()
    ensures forall k :: 0 <= k < |Weekdays| ==> IsCapitalised(Weekdays[k])
  {
  }

  /** A weekday name is a capital followed by lower-case letters. */
  lemma DayShape(t: string)
    requires StartsWithDay(t)
    ensures 0 < DayLength(t) <= |t| && IsAsciiUpper(t[0])
    ensures forall j :: 0 < j < DayLength(t) ==> IsAsciiLower(t[j])
  {
    WeekdaysCapitalised();
    MatchShape(Weekdays, t);
  }

  lemma DayStartsCapital(t: string)
    ensures StartsWithDay(t) ==> t != [] && IsAsciiUpper(t[0])
  {
    if StartsWithDay(t) {
      DayShape(t);
    }
  }

  predicate DayAt(s: string, i: nat)
    requires i <= |s|
  {
    StartsWithDay(s[i..])
  }

  /** `re.split` on the lookahead, from position `i`, with the current piece starting
      at `start`: the text is cut before every weekday name, also at position 0, which
      gives an empty first piece. */
  function SplitFrom(s: string, start: nat, i: nat): (r: seq<string>)
    requires start <= i <= |s|
    ensures r != []
    decreases |s| - i
  {
    if i == |s| then [s[start..]]
    else if DayAt(s, i) then [s[start..i]] + SplitFrom(s, i, i + 1)
    else SplitFrom(s, start, i + 1)
  }

  function SplitBeforeDays(s: string): seq<string> {
    SplitFrom(s, 0, 0)
  }

  /** No weekday name starts inside another one. */
  lemma NoDayInsideDay(s: string, i: nat, j: nat)
    requires i <= |s| && DayAt(s, i) && 0 < j < DayLength(s[i..])
    ensures !DayAt(s, i + j)
  {
    DayShape(s[i..]);
    assert s[i + j] == s[i..][j];
    DayStartsCapital(s[i + j..]);
  }

  /** The pieces put back together give the text. */
  lemma {:induction false} SplitFromJoins(s: string, start: nat, i: nat)
    requires start <= i <= |s|
    ensures Flatten(SplitFrom(s, start, i)) == s[start..]
    decreases |s| - i
  {
    if i == |s| {
      FlattenCons(s[start..], []);
      assert [s[start..]] + [] == [s[start..]];
    } else if DayAt(s, i) {
      SplitFromJoins(s, i, i + 1);
      FlattenCons(s[start..i], SplitFrom(s, i, i + 1));
      assert s[start..i] + s[i..] == s[start..];
    } else {
      SplitFromJoins(s, start, i + 1);
    }
  }

  /** The piece that begins at a weekday name keeps the whole name. */
  lemma PieceKeepsDay(s: string, start: nat, e: nat)
    requires start < e <= |s| && DayAt(s, start)
    requires e == |s| || DayAt(s, e)
    requires forall q :: start < q < e ==> !DayAt(s, q)
    ensures StartsWithDay(s[start..e])
  {
    var n := DayLength(s[start..]);
    DayShape(s[start..]);
    if e < start + n {
      NoDayInsideDay(s, start, e - start);
      assert false;
    }
    MatchOnPrefix(Weekdays, s[start..], s[start..e]);
  }

  /** No weekday name starts inside a piece past its first character. */
  lemma PieceHasNoInnerDay(s: string, start: nat, e: nat, j: nat)
    requires start <= e <= |s|
    requires forall q :: start < q < e ==> !DayAt(s, q)
    requires 0 < j < e - start
    ensures !StartsWithDay(s[start..e][j..])
  {
    assert s[start..e][j..] <= s[start + j..];
    MatchExtends(Weekdays, s[start..e][j..], s[start + j..]);
    assert !DayAt(s, start + j);
  }

  /** The pieces `SplitFrom` yields: every piece but the first starts with a weekday name
      (the first one too when it begins at one), and no piece has a weekday name starting
      inside it. */
  lemma {:induction false} SplitFromPieces(s: string, start: nat, i: nat)
    requires start <= i <= |s|
    requires forall q :: start < q < i ==> !DayAt(s, q)
    ensures var r := SplitFrom(s, start, i);
      && (forall k :: 1 <= k < |r| ==> StartsWithDay(r[k]))
      && (start < i && DayAt(s, start) ==> StartsWithDay(r[0]))
      && (forall k, j :: 0 <= k < |r| && 0 < j < |r[k]| ==> !StartsWithDay(r[k][j..]))
    decreases |s| - i
  {
    var r := SplitFrom(s, start, i);
    if i == |s| {
      assert s[start..i] == s[start..];
      forall j | 0 < j < |r[0]|
        ensures !StartsWithDay(r[0][j..])
      {
        PieceHasNoInnerDay(s, start, i, j);
      }
      if start < i && DayAt(s, start) {
        PieceKeepsDay(s, start, i);
      }
    } else if DayAt(s, i) {
      var rest := SplitFrom(s, i, i + 1);
      SplitFromPieces(s, i, i + 1);
      assert r == [s[start..i]] + rest;
      forall j | 0 < j < |r[0]|
        ensures !StartsWithDay(r[0][j..])
      {
        PieceHasNoInnerDay(s, start, i, j);
      }
      if start < i && DayAt(s, start) {
        PieceKeepsDay(s, start, i);
      }
      forall k | 1 <= k < |r|
        ensures StartsWithDay(r[k])
      {
        assert r[k] == rest[k - 1];
      }
      forall k, j | 0 <= k < |r| && 0 < j < |r[k]|
        ensures !StartsWithDay(r[k][j..])
      {
        if k == 0 {
          PieceHasNoInnerDay(s, start, i, j);
        } else {
          assert r[k] == rest[k - 1];
        }
      }
    } else {
      SplitFromPieces(s, start, i + 1);
      assert r == SplitFrom(s, start, i + 1);
    }
  }

  /** `re.split` of the hours text: the pieces join back to the text, each piece after
      the first starts with a weekday name, and none has a weekday name inside it. */
  lemma SplitBeforeDaysSpec(s: string)
    ensures Flatten(SplitBeforeDays(s)) == s
    ensures forall k :: 1 <= k < |SplitBeforeDays(s)| ==> StartsWithDay(SplitBeforeDays(s)[k])
    ensures forall k, j :: 0 <= k < |SplitBeforeDays(s)| && 0 < j < |SplitBeforeDays(s)[k]|
              ==> !StartsWithDay(SplitBeforeDays(s)[k][j..])
  {
    SplitFromJoins(s, 0, 0);
    SplitFromPieces(s, 0, 0);
  }

  /** The characters `rstrip(";., ")` removes. */
  predicate IsTrailingMark(c: char) {
    c == ';' || c == '.' || c == ',' || c == ' '
  }

  /** `s.rstrip(";., ")` */
  function TrimMarks(s: string): (r: string)
    ensures |r| <= |s| && r == s[..|r|]
    ensures r == [] || !IsTrailingMark(r[|r| - 1])
    ensures forall i :: |r| <= i < |s| ==> IsTrailingMark(s[i])
  {
    if s != [] && IsTrailingMark(s[|s| - 1]) then TrimMarks(s[..|s| - 1]) else s
  }

  /** `d.strip().rstrip(";., ")` for a piece `d` that is not blank; a blank one is dropped. */
  function DayLine(piece: string): Option<string> {
    if Strip(piece) == [] then None else Some(TrimMarks(Strip(piece)))
  }

  /** `days`: one line per piece of the hours text that is not blank. */
  function DayLines(hoursText: string): seq<string> {
    FilterMap(SplitBeforeDays(hoursText), DayLine)
  }

  /** A line neither starts with white space nor ends with one of the marks. */
  lemma DayLineTrimmed(piece: string)
    requires DayLine(piece).Some? && DayLine(piece).value != []
    ensures !IsSpace(DayLine(piece).value[0])
    ensures !IsTrailingMark(DayLine(piece).value[|DayLine(piece).value| - 1])
  {
    var t := Strip(piece);
    assert DayLine(piece).value == TrimMarks(t);
    assert TrimMarks(t)[0] == t[0];
  }

  /** Trimming keeps a piece that opens with letters, and keeps those letters. */
  lemma DayLineKeepsLetters(piece: string, n: nat)
    requires 0 < n <= |piece|
    requires forall j :: 0 <= j < n ==> IsAsciiLetter(piece[j])
    ensures DayLine(piece).Some? && n <= |DayLine(piece).value|
    ensures DayLine(piece).value <= piece
  {
    assert !IsSpace(piece[0]);
    assert TrimStart(piece) == piece;
    var t := Strip(piece);
    assert t == TrimEnd(piece);
    assert IsAsciiLetter(piece[n - 1]);
    assert |t| >= n;
    var line := TrimMarks(t);
    assert t[n - 1] == piece[n - 1];
    assert |line| >= n;
  }

  /** A piece that starts with a weekday name gives a line that starts with it too: the
      trimming only removes white space and marks from the end, and a name ends in a
      letter. */
  lemma DayLineKeepsDay(piece: string)
    requires StartsWithDay(piece)
    ensures DayLine(piece).Some? && StartsWithDay(DayLine(piece).value)
  {
    var n := DayLength(piece);
    DayShape(piece);
    DayLineKeepsLetters(piece, n);
    MatchOnPrefix(Weekdays, piece, DayLine(piece).value);
  }

  /** The lines of the hours text: trimmed, and each but the first opening with its
      weekday name. */
  lemma DayLinesSpec(hoursText: string)
    ensures forall y :: y in DayLines(hoursText) && y != [] ==> !IsSpace(y[0]) && !IsTrailingMark(y[|y| - 1])
    ensures forall i :: 1 <= i < |DayLines(hoursText)| ==> StartsWithDay(DayLines(hoursText)[i])
  {
    var pieces := SplitBeforeDays(hoursText);
    var lines := DayLines(hoursText);
    forall y | y in lines && y != []
      ensures !IsSpace(y[0]) && !IsTrailingMark(y[|y| - 1])
    {
      FilterMapFrom(pieces, DayLine, y);
      var x :| x in pieces && DayLine(x) == Some(y);
      DayLineTrimmed(x);
    }
    SplitBeforeDaysSpec(hoursText);
    forall x | StartsWithDay(x)
      ensures DayLine(x).Some? && StartsWithDay(DayLine(x).value)
    {
      DayLineKeepsDay(x);
    }
    FilterMapAfterFirst(pieces, DayLine, StartsWithDay, StartsWithDay);
  }

  /** `hours_text`: the label without its "Hours " prefix and its closing phrase. */
  function HoursText(aria: string): string {
    Replace(Replace(aria, "Hours ", ""), ". Hide open hours for the week", "")
  }

  /** `opening_hours`: "N/A" unless the label is non-empty and gives at least one line;
      a blank label gives "N/A", and any other value is the lines joined by newlines. */
  function OpeningHours(aria: string): (r: string)
    ensures IsBlank(aria) ==> r == Stores.NotAvailable
    ensures r != Stores.NotAvailable ==> DayLines(HoursText(aria)) != [] && r == Join(DayLines(HoursText(aria)), "\n")
    ensures DayLines(HoursText(aria)) != [] ==> r == Join(DayLines(HoursText(aria)), "\n")
    ensures DayLines(HoursText(aria)) == [] ==> r == Stores.NotAvailable
  {
    BlankHasNoLines(aria);
    if aria == [] then Stores.NotAvailable
    else
      var days := DayLines(HoursText(aria));
      if days == [] then Stores.NotAvailable else Join(days, "\n")
  }

  /** Text with no weekday name in it from position `i` on is not cut from there. */
  lemma {:induction false} SplitWithoutDays(s: string, start: nat, i: nat)
    requires start <= i <= |s|
    requires forall q :: i <= q < |s| ==> !DayAt(s, q)
    ensures SplitFrom(s, start, i) == [s[start..]]
    decreases |s| - i
  {
    if i < |s| {
      SplitWithoutDays(s, start, i + 1);
    }
  }

  /** A blank label is left as it is by the replacements and gives no line. */
  lemma BlankHasNoLines(aria: string)
    ensures IsBlank(aria) ==> HoursText(aria) == aria && DayLines(aria) == []
  {
    if IsBlank(aria) {
      BlankLabel(aria);
    }
  }

  lemma BlankLabel(aria: string)
    requires IsBlank(aria)
    ensures HoursText(aria) == aria && DayLines(aria) == []
  {
    BlankContainsNothing(aria, "Hours ");
    ReplaceAbsent(aria, "Hours ", "");
    BlankContainsNothing(aria, ". Hide open hours for the week");
    ReplaceAbsent(aria, ". Hide open hours for the week", "");
    forall q | 0 <= q < |aria|
      ensures !DayAt(aria, q)
    {
      DayStartsCapital(aria[q..]);
      assert aria[q..][0] == aria[q];
    }
    SplitWithoutDays(aria, 0, 0);
    assert FilterMap([aria], DayLine) == FilterMap([], DayLine) + [];
  }

  /** Hours text with no weekday name in it gives at most one line: the whole text,
      stripped and trimmed of trailing marks, or "N/A" when the text is blank. */
  lemma OpeningHoursWithoutDays(aria: string)
    requires aria != []
    requires forall q :: 0 <= q < |HoursText(aria)| ==> !DayAt(HoursText(aria), q)
    ensures OpeningHours(aria)
         == if IsBlank(HoursText(aria)) then Stores.NotAvailable else TrimMarks(Strip(HoursText(aria)))
  {
    var t := HoursText(aria);
    SplitWithoutDays(t, 0, 0);
    assert t[0..] == t;
    assert FilterMap([t], DayLine) == FilterMap([], DayLine) + (match DayLine(t) case Some(y) => [y] case None => []);
  }

  /** The replacements leave "N/A" as it is, and it has no weekday name in it. */
  lemma NotAvailableHoursText()
    ensures HoursText(Stores.NotAvailable) == Stores.NotAvailable
    ensures forall q :: 0 <= q < |Stores.NotAvailable| ==> !DayAt(Stores.NotAvailable, q)
  {
    var t := Stores.NotAvailable;
    ShortContainsNothing(t, "Hours ");
    ReplaceAbsent(t, "Hours ", "");
    ShortContainsNothing(t, ". Hide open hours for the week");
    ReplaceAbsent(t, ". Hide open hours for the week", "");
    forall q | 0 <= q < |t|
      ensures !DayAt(t, q)
    {
      DayStartsCapital(t[q..]);
      if q == 0 {
        NotAvailableNoDay();
      }
    }
  }

  lemma NotAvailableNoDay()
    ensures !StartsWithDay(Stores.NotAvailable)
  {
    var t := Stores.NotAvailable;
    assert t[0] == 'N';
    assert forall k :: 0 <= k < |Weekdays| ==> Weekdays[k][0] != 'N';
    NoNameStartsWith(Weekdays, t);
  }

  /** No name starts a text whose first character no name has. */
  lemma {:induction false} NoNameStartsWith(names: seq<string>, t: string)
    requires t != [] && forall k :: 0 <= k < |names| ==> names[k] != [] && names[k][0] != t[0]
    ensures !StartsWithOneOf(names, t)
  {
    if names != [] {
      assert forall k :: 0 <= k < |names| - 1 ==> names[1..][k] == names[k + 1];
      NoNameStartsWith(names[1..], t);
    }
  }

  /** A label reading "N/A" gives one line, "N/A", which cannot be told apart from the
      default for a page that shows no hours. */
  lemma OpeningHoursOfNotAvailable()
    ensures DayLines(HoursText(Stores.NotAvailable)) == [Stores.NotAvailable]
    ensures OpeningHours(Stores.NotAvailable) == Stores.NotAvailable
  {
    var t := Stores.NotAvailable;
    NotAvailableHoursText();
    NotAvailableLine();
    SplitWithoutDays(t, 0, 0);
    assert t[0..] == t;
    assert FilterMap([t], DayLine) == FilterMap([], DayLine) + [t];
    OpeningHoursWithoutDays(t);
  }

  /** "N/A" is its own line: nothing to strip, no trailing mark. */
  lemma NotAvailableLine()
    ensures !IsBlank(Stores.NotAvailable) && DayLine(Stores.NotAvailable) == Some(Stores.NotAvailable)
  {
    var t := Stores.NotAvailable;
    assert !IsSpace(t[0]) && !IsSpace(t[2]);
    assert TrimStart(t) == t;
    assert TrimEnd(t) == t;
    assert !IsTrailingMark(t[2]);
    assert TrimMarks(t) == t;
  }
}
