/**
 * `parse_data`, `json_to_md_table`, `parse2chart` (for text input) and
 * `get_args` of utils/functions.py.
 *
 * `parse_data` folds the regex matches of its text (see ReportPattern) into a
 * list of entries: a match whose stripped bold label is all digits starts a
 * new entry numbered by that label, the three known labels fill in fields of
 * the open entry, and every other label is ignored. An entry is kept only if
 * its number is truthy (present and not 0).
 */
module ReportParser {
  import opened Wrappers
  import opened Text
  import opened ReportPattern

  const FactorLabel: string := "위험 요소"
  const GradeLabel: string := "위험 등급"
  const MeasuresLabel: string := "위험 감소 조치"

  /** The dict with the keys 번호 (number), 위험 요소 (factor), 위험 등급 (grade) and 위험 감소 조치 (measures). */
  datatype Entry = Entry(number: Option<nat>, factor: Option<string>, grade: Option<int>, measures: seq<string>)

  /** The entry `parse_data` starts from, before any numeric label. */
  const Blank: Entry := Entry(None, None, None, [])

  /**
   * The `ValueError` of `int()`: on the content of a 위험 등급 match, or on a
   * numeric label longer than `MaxStrDigits` digits.
   */
  datatype ParseError = InvalidGrade(content: string) | InvalidNumber(digits: string)

  /** `current_entry["번호"]` is truthy. */
  predicate HasNumber(e: Entry)
  {
    e.number.Some? && e.number.value != 0
  }

  /** The number a match opens an entry with, when its stripped label is all digits. */
  function LabelNumber(m: Match): (r: Option<nat>)
    ensures r.Some? <==> IsAllDigits(Strip(m.section))
  {
    var section := Strip(m.section);
    if IsAllDigits(section) then Some(DigitsValue(section)) else None
  }

  /** A 위험 등급 match whose content `int()` rejects. */
  predicate IsBadGrade(m: Match)
  {
    Strip(m.section) == GradeLabel && ParseInt(Strip(m.content)).None?
  }

  /** A numeric label with more digits than `int()` converts. */
  predicate IsBadLabel(m: Match)
  {
    IsAllDigits(Strip(m.section)) && |Strip(m.section)| > MaxStrDigits
  }

  /** A match on which `parse_data` raises `ValueError`. */
  predicate Raises(m: Match)
  {
    IsBadLabel(m) || IsBadGrade(m)
  }

  /** The error a raising match gives: `int()` failing on the stripped label or the stripped content. */
  function RaisedError(m: Match): ParseError
  {
    if IsBadLabel(m) then InvalidNumber(Strip(m.section)) else InvalidGrade(Strip(m.content))
  }

  // ---------------------------------------------------------------- measures

  /** The end of a separator `\n\s*-\s*` that starts at `i`, if one does: the greedy `\s*` runs stop at the first non-space. */
  function SeparatorEnd(s: string, i: nat): (r: Option<nat>)
    requires i <= |s|
    ensures r.Some? ==> i < r.value <= |s| && s[i] == '\n'
    ensures r.Some? ==> r.value == |s| || !IsSpace(s[r.value])
  {
    if i < |s| && s[i] == '\n' then
      var w := SpaceRunEnd(s, i + 1);
      if w < |s| && s[w] == '-' then Some(SpaceRunEnd(s, w + 1)) else None
    else None
  }

  /** A separator matches at `i` exactly when a newline, then whitespace, then a `-` follow. */
  lemma SeparatorMatches(s: string, i: nat)
    requires i <= |s|
    ensures SeparatorEnd(s, i).Some? <==>
              i < |s| && s[i] == '\n' && exists w :: i < w < |s| && s[w] == '-' && forall k :: i < k < w ==> IsSpace(s[k])
  {
    if i < |s| && s[i] == '\n' {
      var w := SpaceRunEnd(s, i + 1);
      SpaceRun(s, i + 1);
      if w < |s| && s[w] == '-' {
        assert forall k :: i < k < w ==> IsSpace(s[k]);
      } else {
        forall w' | i < w' < |s| && (forall k :: i < k < w' ==> IsSpace(s[k])) && !IsSpace(s[w'])
          ensures w' == w
        {
          SpaceRunEndAt(s, i + 1, w');
        }
      }
    }
  }

  /** A separator consumes the newline, the whitespace, the `-` and all the whitespace after it. */
  lemma SeparatorConsumes(s: string, i: nat)
    requires i <= |s| && SeparatorEnd(s, i).Some?
    ensures exists w :: && i < w < SeparatorEnd(s, i).value && s[w] == '-'
                        && (forall k :: i < k < w ==> IsSpace(s[k]))
                        && (forall k :: w < k < SeparatorEnd(s, i).value ==> IsSpace(s[k]))
  {
    var w := SpaceRunEnd(s, i + 1);
    var e := SeparatorEnd(s, i).value;
    SpaceRun(s, i + 1);
    SpaceRun(s, w + 1);
    assert e == SpaceRunEnd(s, w + 1);
    assert i < w < e && s[w] == '-';
    assert forall k :: i < k < w ==> IsSpace(s[k]);
    assert forall k :: w < k < e ==> IsSpace(s[k]);
  }

  /** `re.split(r"\n\s*-\s*", s)`, scanning from `i` with the current piece starting at `start`: at least one piece, the first starting at `start` and the last ending the text. */
  function SplitFrom(s: string, start: nat, i: nat): (r: seq<string>)
    requires start <= i <= |s|
    ensures |r| >= 1
    decreases |s| - i
  {
    if i == |s| then [s[start..]]
    else
      match SeparatorEnd(s, i)
      case Some(e) => [s[start..i]] + SplitFrom(s, e, e)
      case None => SplitFrom(s, start, i + 1)
  }

  /** `[m.strip() for m in pieces if m.strip()]`. */
  function KeepNonBlank(pieces: seq<string>): (r: seq<string>)
    ensures |r| <= |pieces|
    ensures forall i :: 0 <= i < |r| ==> r[i] != "" && IsStripped(r[i])
  {
    if pieces == [] then []
    else
      var m := Strip(pieces[0]);
      (if m != "" then [m] else []) + KeepNonBlank(pieces[1..])
  }

  /** One piece is kept, stripped, exactly when it is not blank. */
  lemma KeepNonBlankSingle(piece: string)
    ensures KeepNonBlank([piece]) == if Strip(piece) == "" then [] else [Strip(piece)]
  {
    assert [piece][1..] == [];
  }

  /** The filter works piece by piece and keeps the order: together with the one-piece case it fixes the result. */
  lemma {:induction false} KeepNonBlankAppend(a: seq<string>, b: seq<string>)
    ensures KeepNonBlank(a + b) == KeepNonBlank(a) + KeepNonBlank(b)
    decreases |a|
  {
    if a == [] {
      assert a + b == b;
    } else {
      assert (a + b)[0] == a[0] && (a + b)[1..] == a[1..] + b;
      KeepNonBlankAppend(a[1..], b);
      var head := if Strip(a[0]) != "" then [Strip(a[0])] else [];
      AppendAssoc(head, KeepNonBlank(a[1..]), KeepNonBlank(b));
    }
  }

  /** The list stored under 위험 감소 조치 for the content of its match: every measure is non-empty and stripped. */
  function SplitMeasures(content: string): (r: seq<string>)
    ensures forall i :: 0 <= i < |r| ==> r[i] != "" && IsStripped(r[i])
  {
    KeepNonBlank(SplitFrom(content, 0, 0))
  }

  /** A text without a newline holds no separator, so it is its own only piece. */
  lemma SplitWithoutNewline(s: string)
    requires forall k :: 0 <= k < |s| ==> s[k] != '\n'
    ensures SplitFrom(s, 0, 0) == [s]
  {
    SplitNoSeparator(s);
  }

  /** A one-line 위험 감소 조치 gives a single measure: its stripped text, or none when it is blank. */
  lemma OneLineMeasures(content: string)
    requires forall k :: 0 <= k < |content| ==> content[k] != '\n'
    ensures SplitMeasures(content) == if Strip(content) == "" then [] else [Strip(content)]
  {
    SplitWithoutNewline(content);
  }

  /** A separator is recognised the same way after any prefix: `SeparatorEnd` looks only forward. */
  lemma SeparatorEndShift(x: string, b: string, i: nat)
    requires i <= |b|
    ensures SeparatorEnd(x + b, |x| + i) == if SeparatorEnd(b, i).Some? then Some(|x| + SeparatorEnd(b, i).value) else None
  {
    if i < |b| && b[i] == '\n' {
      assert (x + b)[|x| + i] == b[i];
      SpaceRunEndShift(x, b, i + 1);
      var w := SpaceRunEnd(b, i + 1);
      if w < |b| {
        assert (x + b)[|x| + w] == b[w];
        SpaceRunEndShift(x, b, w + 1);
      }
    } else if i < |b| {
      assert (x + b)[|x| + i] == b[i];
    }
  }

  /** At a separator the scan closes the current piece and opens the next one where the separator ends. */
  lemma SplitFromAtSeparator(s: string, start: nat, i: nat, e: nat)
    requires start <= i < |s| && SeparatorEnd(s, i) == Some(e)
    ensures SplitFrom(s, start, i) == [s[start..i]] + SplitFrom(s, e, e)
  {
  }

  /** Elsewhere the scan moves on by one character. */
  lemma SplitFromPastSeparator(s: string, start: nat, i: nat)
    requires start <= i < |s| && SeparatorEnd(s, i).None?
    ensures SplitFrom(s, start, i) == SplitFrom(s, start, i + 1)
  {
  }

  /** Slices of `x + b` past `x` are slices of `b`. */
  lemma SliceShift(x: string, b: string, start: nat, i: nat)
    requires start <= i <= |b|
    ensures (x + b)[|x| + start..|x| + i] == b[start..i]
    ensures (x + b)[|x| + start..] == b[start..]
  {
  }

  /** The split of a text after a prefix, scanned from past the prefix, is the split of the text alone. */
  lemma {:induction false} SplitFromShift(x: string, b: string, start: nat, i: nat)
    requires start <= i <= |b|
    ensures SplitFrom(x + b, |x| + start, |x| + i) == SplitFrom(b, start, i)
    decreases |b| - i, 2
  {
    if i == |b| {
      SliceShift(x, b, start, i);
    } else if SeparatorEnd(b, i).Some? {
      SplitFromShiftAtSeparator(x, b, start, i);
    } else {
      SplitFromShiftPastSeparator(x, b, start, i);
    }
  }

  /** The shift step at a separator of `b`. */
  lemma {:induction false} SplitFromShiftAtSeparator(x: string, b: string, start: nat, i: nat)
    requires start <= i < |b| && SeparatorEnd(b, i).Some?
    ensures SplitFrom(x + b, |x| + start, |x| + i) == SplitFrom(b, start, i)
    decreases |b| - i, 1
  {
    var s := x + b;
    var e := SeparatorEnd(b, i).value;
    SeparatorEndShift(x, b, i);
    assert SeparatorEnd(s, |x| + i) == Some(|x| + e);
    SliceShift(x, b, start, i);
    SplitFromAtSeparator(s, |x| + start, |x| + i, |x| + e);
    SplitFromAtSeparator(b, start, i, e);
    SplitFromShift(x, b, e, e);
  }

  /** The shift step past a position of `b` where no separator starts. */
  lemma {:induction false} SplitFromShiftPastSeparator(x: string, b: string, start: nat, i: nat)
    requires start <= i < |b| && SeparatorEnd(b, i).None?
    ensures SplitFrom(x + b, |x| + start, |x| + i) == SplitFrom(b, start, i)
    decreases |b| - i, 1
  {
    var s := x + b;
    SeparatorEndShift(x, b, i);
    assert SeparatorEnd(s, |x| + i).None?;
    SplitFromPastSeparator(s, |x| + start, |x| + i);
    SplitFromPastSeparator(b, start, i);
    SplitFromShift(x, b, start, i + 1);
  }

  /** The scan passes over a stretch where no separator starts (one without a newline, say), leaving the current piece open. */
  lemma {:induction false} SplitFromSkip(s: string, start: nat, i: nat, n: nat)
    requires start <= i <= n <= |s|
    requires forall k :: i <= k < n ==> SeparatorEnd(s, k).None?
    ensures SplitFrom(s, start, i) == SplitFrom(s, start, n)
    decreases n - i
  {
    if i < n {
      SplitFromPastSeparator(s, start, i);
      SplitFromSkip(s, start, i + 1, n);
    }
  }

  /** Where no separator starts anywhere, `re.split` returns the text as its only piece. */
  lemma SplitNoSeparator(s: string)
    requires forall k :: 0 <= k < |s| ==> SeparatorEnd(s, k).None?
    ensures SplitFrom(s, 0, 0) == [s]
  {
    SplitFromSkip(s, 0, 0, |s|);
    assert s[0..] == s;
  }

  /**
   * `re.split` at the first separator: the text before it is the first piece,
   * and the text after it is split on its own.
   */
  lemma SplitFirstSeparator(s: string, i: nat, e: nat)
    requires i <= |s| && SeparatorEnd(s, i) == Some(e)
    requires forall k :: 0 <= k < i ==> SeparatorEnd(s, k).None?
    ensures SplitFrom(s, 0, 0) == [s[..i]] + SplitFrom(s[e..], 0, 0)
  {
    SplitFromSkip(s, 0, 0, i);
    SplitFromAtSeparator(s, 0, i, e);
    SplitFromSuffix(s, e);
  }

  /** A piece opened at `e` is split as the text from `e` on. */
  lemma SplitFromSuffix(s: string, e: nat)
    requires e <= |s|
    ensures SplitFrom(s, e, e) == SplitFrom(s[e..], 0, 0)
  {
    var x, b := s[..e], s[e..];
    assert x + b == s && |x| == e;
    SplitFromShift(x, b, 0, 0);
  }

  /** The newline, `-` and space after a line form one separator, which stops where `b` starts when `b` starts with a non-space. */
  lemma BulletSeparator(a: string, b: string)
    requires b == [] || !IsSpace(b[0])
    ensures SeparatorEnd(a + "\n- " + b, |a|) == Some(|a| + 3)
  {
    var x := a + "\n- ";
    var s := x + b;
    var n := |a|;
    assert s[n] == '\n' && s[n + 1] == '-' && s[n + 2] == ' ';
    SpaceRunEndShift(x, b, 0);
    assert SpaceRunEnd(s, n + 3) == n + 3;
    SpaceRunEndAt(s, n + 1, n + 1);
  }

  /**
   * A line of text followed by a `- ` bullet on the next line: the line is the
   * first piece, and the rest is split on its own.
   */
  lemma SplitAfterBullet(a: string, b: string)
    requires '\n' !in a
    requires b == [] || !IsSpace(b[0])
    ensures SplitFrom(a + "\n- " + b, 0, 0) == [a] + SplitFrom(b, 0, 0)
  {
    var s := a + "\n- " + b;
    var n := |a|;
    assert forall k :: 0 <= k < n ==> s[k] == a[k];
    BulletSeparator(a, b);
    SplitFirstSeparator(s, n, n + 3);
    assert s[..n] == a && s[n + 3..] == b;
  }

  /** So a bullet line adds its own measure, when not blank, before the measures of the lines after it. */
  lemma SplitMeasuresAfterBullet(a: string, b: string)
    requires '\n' !in a
    requires b == [] || !IsSpace(b[0])
    ensures SplitMeasures(a + "\n- " + b) == KeepNonBlank([a]) + SplitMeasures(b)
  {
    SplitAfterBullet(a, b);
    KeepNonBlankAppend([a], SplitFrom(b, 0, 0));
  }

  // ---------------------------------------------------------------- the fold

  /** The loop state of `parse_data`: `results` and `current_entry`. */
  datatype FoldState = FoldState(results: seq<Entry>, current: Entry)

  const Start: FoldState := FoldState([], Blank)

  /** How many entries a state will have stored once the open one is kept: 1 for an open numbered entry. */
  function Pending(s: FoldState): nat
  {
    |s.results| + if HasNumber(s.current) then 1 else 0
  }

  /**
   * One turn of the loop over the matches. It raises exactly on a raising
   * match, only ever appends to the stored entries, and adds at most one
   * entry to what will be stored.
   */
  function Step(s: FoldState, m: Match): (r: Result<FoldState, ParseError>)
    ensures r.Failure? <==> Raises(m)
    ensures r.Failure? ==> r.error == RaisedError(m)
    ensures r.Success? ==> s.results <= r.value.results && Pending(r.value) <= Pending(s) + 1
  {
    var section := Strip(m.section);
    var content := Strip(m.content);
    if IsAllDigits(section) then
      if |section| > MaxStrDigits then Failure(InvalidNumber(section))
      else
        var results := if HasNumber(s.current) then s.results + [s.current] else s.results;
        Success(FoldState(results, Entry(Some(DigitsValue(section)), None, None, [])))
    else if section == FactorLabel then
      Success(s.(current := s.current.(factor := Some(content))))
    else if section == GradeLabel then
      match ParseInt(content)
      case None => Failure(InvalidGrade(content))
      case Some(g) => Success(s.(current := s.current.(grade := Some(g))))
    else if section == MeasuresLabel then
      Success(s.(current := s.current.(measures := SplitMeasures(content))))
    else
      Success(s)
  }

  /** The loop over `ms` from state `s`: stored entries are never changed or removed, and each match adds at most one. */
  function Run(s: FoldState, ms: seq<Match>): (r: Result<FoldState, ParseError>)
    ensures r.Success? ==> s.results <= r.value.results && Pending(r.value) <= Pending(s) + |ms|
    decreases |ms|
  {
    if ms == [] then Success(s)
    else
      match Step(s, ms[0])
      case Failure(e) => Failure(e)
      case Success(next) => Run(next, ms[1..])
  }

  /** After the loop: the open entry is kept if its number is truthy. */
  function Finish(s: FoldState): (r: seq<Entry>)
    ensures s.results <= r && |r| == Pending(s)
    ensures |r| == |s.results| + 1 <==> HasNumber(s.current)
    ensures |r| == |s.results| + 1 ==> r[|s.results|] == s.current
  {
    if HasNumber(s.current) then s.results + [s.current] else s.results
  }

  /** What `parse_data` returns for the matches `ms`: at most one entry per match. */
  function Parse(ms: seq<Match>): (r: Result<seq<Entry>, ParseError>)
    ensures r.Success? ==> |r.value| <= |ms|
  {
    match Run(Start, ms)
    case Failure(e) => Failure(e)
    case Success(s) => Success(Finish(s))
  }

  /** `parse_data(text)`: the loop over the regex matches, reassigning `current_entry` and appending to `results`. */
  method ParseData(text: string) returns (r: Result<seq<Entry>, ParseError>)
    ensures r == Parse(FindAll(text, 0))
  {
    var matches := FindAll(text, 0);
    var results: seq<Entry> := [];
    var current := Blank;
    var i := 0;
    while i < |matches|
      invariant 0 <= i <= |matches|
      invariant Run(Start, matches) == Run(FoldState(results, current), matches[i..])
    {
      ghost var before := FoldState(results, current);
      assert matches[i..][1..] == matches[i + 1..];
      var section := Strip(matches[i].section);
      var content := Strip(matches[i].content);
      if IsAllDigits(section) {
        if |section| > MaxStrDigits {
          return Failure(InvalidNumber(section));
        }
        if HasNumber(current) {
          results := results + [current];
        }
        current := Entry(Some(DigitsValue(section)), None, None, []);
      } else if section == FactorLabel {
        current := current.(factor := Some(content));
      } else if section == GradeLabel {
        var grade := ParseInt(content);
        if grade.None? {
          return Failure(InvalidGrade(content));
        }
        current := current.(grade := grade);
      } else if section == MeasuresLabel {
        current := current.(measures := SplitMeasures(content));
      }
      assert Step(before, matches[i]) == Success(FoldState(results, current));
      i := i + 1;
    }
    r := Success(Finish(FoldState(results, current)));
  }

  // ---------------------------------------------------------------- properties of the fold

  lemma {:induction false} RunAppend(s: FoldState, a: seq<Match>, b: seq<Match>)
    ensures Run(s, a + b) == match Run(s, a) case Failure(e) => Failure(e) case Success(mid) => Run(mid, b)
    decreases |a|
  {
    if a == [] {
      assert a + b == b;
    } else {
      assert (a + b)[0] == a[0] && (a + b)[1..] == a[1..] + b;
      match Step(s, a[0]) {
        case Failure(e) =>
        case Success(next) => RunAppend(next, a[1..], b);
      }
    }
  }

  /** The number of an entry, 0 where it has none. */
  function NumberOf(e: Entry): nat
  {
    if e.number.Some? then e.number.value else 0
  }

  /** The numbers of a list of entries. */
  function Numbers(es: seq<Entry>): (r: seq<nat>)
    ensures |r| == |es|
  {
    seq(|es|, i requires 0 <= i < |es| => NumberOf(es[i]))
  }

  /** The non-zero numeric labels of `ms`, in order. */
  function NonZeroLabels(ms: seq<Match>): seq<nat>
  {
    if ms == [] then []
    else
      var rest := NonZeroLabels(ms[1..]);
      match LabelNumber(ms[0])
      case Some(n) => if n != 0 then [n] + rest else rest
      case None => rest
  }

  predicate AllNumbered(es: seq<Entry>)
  {
    forall i :: 0 <= i < |es| ==> HasNumber(es[i])
  }

  /** What one step does to the kept entries and the open entry's number. */
  lemma StepNumbers(s: FoldState, m: Match)
    requires Step(s, m).Success?
    ensures LabelNumber(m).Some? ==>
              Step(s, m).value.results == Finish(s) && Step(s, m).value.current.number == LabelNumber(m)
    ensures LabelNumber(m).None? ==>
              Step(s, m).value.results == s.results && Step(s, m).value.current.number == s.current.number
  {
  }

  lemma NumbersSnoc(es: seq<Entry>, e: Entry)
    ensures Numbers(es + [e]) == Numbers(es) + [NumberOf(e)]
  {
  }

  lemma {:induction false} RunNumbers(s: FoldState, ms: seq<Match>)
    requires Run(s, ms).Success?
    requires AllNumbered(s.results)
    ensures AllNumbered(Run(s, ms).value.results)
    ensures Numbers(Finish(Run(s, ms).value)) == Numbers(Finish(s)) + NonZeroLabels(ms)
    decreases |ms|
  {
    if ms == [] {
      assert Numbers(Finish(s)) + [] == Numbers(Finish(s));
    } else {
      var next := Step(s, ms[0]).value;
      StepNumbers(s, ms[0]);
      RunNumbers(next, ms[1..]);
      var rest := NonZeroLabels(ms[1..]);
      match LabelNumber(ms[0]) {
        case Some(n) =>
          if n != 0 {
            NumbersSnoc(Finish(s), next.current);
            AppendAssoc(Numbers(Finish(s)), [n], rest);
          }
        case None =>
          if HasNumber(s.current) {
            NumbersSnoc(s.results, s.current);
            NumbersSnoc(next.results, next.current);
          }
      }
    }
  }

  /**
   * Entries are opened only by numeric labels, and kept only when their number
   * is non-zero: the numbers of the result are the non-zero numeric labels, in
   * the order they occur.
   */
  lemma ParseNumbers(ms: seq<Match>)
    requires Parse(ms).Success?
    ensures AllNumbered(Parse(ms).value)
    ensures Numbers(Parse(ms).value) == NonZeroLabels(ms)
  {
    RunNumbers(Start, ms);
    assert Finish(Start) == [];
  }

  /** The index of the first match on which `int()` raises. */
  function FirstRaise(ms: seq<Match>): (r: Option<nat>)
    ensures r.Some? ==> r.value < |ms| && Raises(ms[r.value])
  {
    if ms == [] then None
    else if Raises(ms[0]) then Some(0)
    else
      match FirstRaise(ms[1..])
      case None => None
      case Some(i) => Some(i + 1)
  }

  /** No match before the one `FirstRaise` finds raises, and none at all when it finds none. */
  lemma {:induction false} FirstRaiseIsFirst(ms: seq<Match>)
    ensures FirstRaise(ms).Some? ==> forall j :: 0 <= j < FirstRaise(ms).value ==> !Raises(ms[j])
    ensures FirstRaise(ms).None? ==> forall j :: 0 <= j < |ms| ==> !Raises(ms[j])
    decreases |ms|
  {
    if ms != [] && !Raises(ms[0]) {
      FirstRaiseIsFirst(ms[1..]);
      forall j | 1 <= j < |ms|
        ensures ms[j] == ms[1..][j - 1]
      {
      }
    }
  }

  lemma {:induction false} RunError(s: FoldState, ms: seq<Match>)
    ensures Run(s, ms).Failure? <==> FirstRaise(ms).Some?
    ensures Run(s, ms).Failure? ==> Run(s, ms).error == RaisedError(ms[FirstRaise(ms).value])
    decreases |ms|
  {
    if ms != [] {
      if !Raises(ms[0]) {
        var next := Step(s, ms[0]).value;
        assert Run(s, ms) == Run(next, ms[1..]);
        RunError(next, ms[1..]);
        var rest := FirstRaise(ms[1..]);
        if rest.Some? {
          assert FirstRaise(ms) == Some(rest.value + 1);
          assert ms[1..][rest.value] == ms[rest.value + 1];
        } else {
          assert FirstRaise(ms) == None;
        }
      }
    }
  }

  /**
   * `parse_data` raises exactly when some 위험 등급 content is not an integer
   * literal `int()` accepts or some numeric label has too many digits, and the
   * error comes from the first such match.
   */
  lemma ParseFailsOnValueError(ms: seq<Match>)
    ensures Parse(ms).Failure? <==> exists i :: 0 <= i < |ms| && Raises(ms[i])
    ensures Parse(ms).Failure? ==> FirstRaise(ms).Some? && Parse(ms).error == RaisedError(ms[FirstRaise(ms).value])
  {
    RunError(Start, ms);
    FirstRaiseIsFirst(ms);
  }

  lemma RunSingle(s: FoldState, m: Match)
    ensures Run(s, [m]) == Step(s, m)
  {
    assert [m][1..] == [];
  }

  /** The stripped content of the last match labelled `key` since the last numeric label. */
  function LatestSince(ms: seq<Match>, key: string): Option<string>
    decreases |ms|
  {
    if ms == [] then None
    else
      var m := ms[|ms| - 1];
      if IsAllDigits(Strip(m.section)) then None
      else if Strip(m.section) == key then Some(Strip(m.content))
      else LatestSince(ms[..|ms| - 1], key)
  }

  /** The number of the last numeric label. */
  function LastLabel(ms: seq<Match>): Option<nat>
    decreases |ms|
  {
    if ms == [] then None
    else if LabelNumber(ms[|ms| - 1]).Some? then LabelNumber(ms[|ms| - 1])
    else LastLabel(ms[..|ms| - 1])
  }

  /** The entry that is open after `ms`, described field by field. */
  function OpenEntry(ms: seq<Match>): Entry
  {
    Entry(
      LastLabel(ms),
      LatestSince(ms, FactorLabel),
      match LatestSince(ms, GradeLabel) case None => None case Some(c) => ParseInt(c),
      match LatestSince(ms, MeasuresLabel) case None => [] case Some(c) => SplitMeasures(c))
  }

  /**
   * Within an entry a later 위험 요소, 위험 등급 or 위험 감소 조치 overwrites an
   * earlier one: the open entry carries the number of the last numeric label
   * and, for each field, the content of the last match with its label since
   * then.
   */
  lemma {:induction false} OpenEntryFields(ms: seq<Match>)
    requires Run(Start, ms).Success?
    ensures Run(Start, ms).value.current == OpenEntry(ms)
    decreases |ms|
  {
    if ms != [] {
      var front, m := ms[..|ms| - 1], ms[|ms| - 1];
      assert front + [m] == ms;
      RunAppend(Start, front, [m]);
      assert Run(Start, front).Success?;
      OpenEntryFields(front);
      RunSingle(Run(Start, front).value, m);
      assert ms[..|ms| - 1] == front;
      var section := Strip(m.section);
      if IsAllDigits(section) {
      } else if section == FactorLabel {
      } else if section == GradeLabel {
      } else if section == MeasuresLabel {
      } else {
      }
    }
  }

  lemma {:induction false} RunPreamble(s: FoldState, pre: seq<Match>)
    requires forall i :: 0 <= i < |pre| ==> LabelNumber(pre[i]).None? && !IsBadGrade(pre[i])
    ensures Run(s, pre).Success?
    ensures Run(s, pre).value.results == s.results
    ensures Run(s, pre).value.current.number == s.current.number
    decreases |pre|
  {
    if pre != [] {
      RunPreamble(Step(s, pre[0]).value, pre[1..]);
    }
  }

  /** Fields seen before the first numeric label never reach the output. */
  lemma ParseIgnoresPreamble(pre: seq<Match>, rest: seq<Match>)
    requires forall i :: 0 <= i < |pre| ==> LabelNumber(pre[i]).None? && !IsBadGrade(pre[i])
    requires rest != [] && LabelNumber(rest[0]).Some?
    ensures Parse(pre + rest) == Parse(rest)
  {
    RunPreamble(Start, pre);
    RunAppend(Start, pre, rest);
    var mid := Run(Start, pre).value;
    assert Step(mid, rest[0]) == Step(Start, rest[0]);
  }

  lemma {:induction false} RunIgnoresNumberGroup(s: FoldState, ms: seq<Match>, ms': seq<Match>)
    requires |ms| == |ms'|
    requires forall i :: 0 <= i < |ms| ==> ms[i].section == ms'[i].section && ms[i].content == ms'[i].content
    ensures Run(s, ms) == Run(s, ms')
    decreases |ms|
  {
    if ms != [] {
      assert Step(s, ms[0]) == Step(s, ms'[0]);
      match Step(s, ms[0]) {
        case Failure(e) =>
        case Success(next) => RunIgnoresNumberGroup(next, ms[1..], ms'[1..]);
      }
    }
  }

  /** The leading `N.` digits of a match never influence the result. */
  lemma ParseIgnoresNumberGroup(ms: seq<Match>, ms': seq<Match>)
    requires |ms| == |ms'|
    requires forall i :: 0 <= i < |ms| ==> ms[i].section == ms'[i].section && ms[i].content == ms'[i].content
    ensures Parse(ms) == Parse(ms')
  {
    RunIgnoresNumberGroup(Start, ms, ms');
  }

  // ---------------------------------------------------------------- the Markdown table

  /** The column titles and the Markdown rule under them, cell by cell. */
  const HeaderText: string := "| 번호 " + "| 위험 요소 " + "| 위험 등급 " + "| 위험 감소 조치 " + "|"
  const RuleText: string := "|------" + "|-----------" + "|------------" + "|----------------" + "|"
  const HeaderLine: string := HeaderText + "\n"
  const RuleLine: string := RuleText + "\n"

  /** f"{value}" of each field: Python prints `None` as "None". */
  function ShowNumber(n: Option<nat>): string
  {
    match n case None => "None" case Some(v) => NatToString(v)
  }

  function ShowText(t: Option<string>): string
  {
    match t case None => "None" case Some(v) => v
  }

  function ShowGrade(g: Option<int>): string
  {
    match g case None => "None" case Some(v) => IntToString(v)
  }

  /** The four printed cells of an item. */
  function Cells(e: Entry): seq<string>
  {
    [ShowNumber(e.number), ShowText(e.factor), ShowGrade(e.grade), Join(e.measures, "<br>")]
  }

  /** The row of one item: `| a | b | c | d |` and a line break. */
  function Row(e: Entry): (r: string)
    ensures |r| >= 5 && r[0] == '|' && r[|r| - 2] == '|' && r[|r| - 1] == '\n'
  {
    "| " + Join(Cells(e), " | ") + " |\n"
  }

  /** One row per item, in order: empty exactly for no items, and otherwise ending in a line break. */
  function Rows(data: seq<Entry>): (r: string)
    ensures r == "" <==> data == []
    ensures data != [] ==> r[|r| - 1] == '\n'
  {
    if data == [] then "" else Rows(data[..|data| - 1]) + Row(data[|data| - 1])
  }

  /** `json_to_md_table(data)`: the two header lines, then one row per item appended in a loop. */
  method JsonToMdTable(data: seq<Entry>) returns (table: string)
    ensures table == HeaderLine + RuleLine + Rows(data)
  {
    table := HeaderLine;
    table := table + RuleLine;
    var i := 0;
    while i < |data|
      invariant 0 <= i <= |data|
      invariant table == HeaderLine + RuleLine + Rows(data[..i])
    {
      RowsSnoc(data, i);
      AppendAssoc(HeaderLine + RuleLine, Rows(data[..i]), Row(data[i]));
      table := table + Row(data[i]);
      i := i + 1;
    }
    assert data[..|data|] == data;
  }

  lemma RowsSnoc(data: seq<Entry>, i: nat)
    requires i < |data|
    ensures Rows(data[..i + 1]) == Rows(data[..i]) + Row(data[i])
  {
    assert data[..i + 1][..i] == data[..i];
  }

  lemma AppendAssoc<T>(a: seq<T>, b: seq<T>, c: seq<T>)
    ensures (a + b) + c == a + (b + c)
  {
  }

  lemma {:induction false} RowsAppend(a: seq<Entry>, b: seq<Entry>)
    ensures Rows(a + b) == Rows(a) + Rows(b)
    decreases |b|
  {
    if b == [] {
      assert a + b == a;
    } else {
      var front := b[..|b| - 1];
      assert (a + b)[..|a + b| - 1] == a + front;
      assert (a + b)[|a + b| - 1] == b[|b| - 1];
      RowsAppend(a, front);
      AppendAssoc(Rows(a), Rows(front), Row(b[|b| - 1]));
    }
  }

  lemma SplitAround<T>(s: seq<T>, k: nat)
    requires k < |s|
    ensures s == s[..k] + [s[k]] + s[k + 1..]
  {
  }

  lemma EmptyPrefix(a: string)
    ensures "" + a == a
  {
  }

  lemma RowsSingle(e: Entry)
    ensures Rows([e]) == Row(e)
  {
    assert [e][..0] == [];
    EmptyPrefix(Row(e));
  }

  /** Rows are in input order: the row of item `k` comes after exactly the rows of the items before it. */
  lemma RowAt(data: seq<Entry>, k: nat)
    requires k < |data|
    ensures Rows(data) == Rows(data[..k]) + Row(data[k]) + Rows(data[k + 1..])
  {
    SplitAround(data, k);
    RowsAppend(data[..k] + [data[k]], data[k + 1..]);
    RowsAppend(data[..k], [data[k]]);
    RowsSingle(data[k]);
  }

  /** No printed field of `e` holds a line break. */
  predicate SingleLine(e: Entry)
  {
    && (e.factor.Some? ==> '\n' !in e.factor.value)
    && forall j :: 0 <= j < |e.measures| ==> '\n' !in e.measures[j]
  }

  lemma {:induction false} JoinSingleLine(xs: seq<string>, sep: string)
    requires '\n' !in sep
    requires forall j :: 0 <= j < |xs| ==> '\n' !in xs[j]
    ensures '\n' !in Join(xs, sep)
  {
    if |xs| > 1 {
      JoinSingleLine(xs[1..], sep);
    }
  }

  lemma DigitsSingleLine(s: string)
    requires forall k :: 0 <= k < |s| ==> IsDigit(s[k])
    ensures '\n' !in s
  {
  }

  /** A row with no line break in its fields is exactly one line. */
  lemma RowIsOneLine(e: Entry)
    requires SingleLine(e)
    ensures CountChar(Row(e), '\n') == 1
    ensures Row(e)[|Row(e)| - 1] == '\n'
  {
    if e.number.Some? {
      DigitsSingleLine(ShowNumber(e.number));
    }
    if e.grade.Some? {
      var v := e.grade.value;
      DigitsSingleLine(NatToString(if v < 0 then -v else v));
    }
    JoinSingleLine(e.measures, "<br>");
    JoinSingleLine(Cells(e), " | ");
    var front := "| " + Join(Cells(e), " | ") + " |";
    assert Row(e) == front + "\n";
    OneLine(front);
  }

  /** A line of text without a line break, ended by one: one line. */
  lemma OneLine(s: string)
    requires '\n' !in s
    ensures CountChar(s + "\n", '\n') == 1
  {
    CountCharAbsent(s, '\n');
    CountCharAppend(s, "\n", '\n');
  }

  /** When no field holds a line break, the table has exactly `|data| + 2` lines, each ending in a newline. */
  lemma {:induction false} TableLines(data: seq<Entry>)
    requires forall i :: 0 <= i < |data| ==> SingleLine(data[i])
    ensures CountChar(HeaderLine + RuleLine + Rows(data), '\n') == |data| + 2
    ensures (HeaderLine + RuleLine + Rows(data))[|HeaderLine + RuleLine + Rows(data)| - 1] == '\n'
    decreases |data|
  {
    if data == [] {
      OneLine(HeaderText);
      OneLine(RuleText);
      CountCharAppend(HeaderLine, RuleLine, '\n');
      assert HeaderLine + RuleLine + Rows(data) == HeaderLine + RuleLine;
    } else {
      var front := data[..|data| - 1];
      TableLines(front);
      RowIsOneLine(data[|data| - 1]);
      var row := Row(data[|data| - 1]);
      AppendAssoc(HeaderLine + RuleLine, Rows(front), row);
      CountCharAppend(HeaderLine + RuleLine + Rows(front), row, '\n');
    }
  }

  /** `parse2chart(text)` for a string: parse it, then render the entries as a Markdown table. */
  method Parse2Chart(text: string) returns (r: Result<string, ParseError>)
    ensures r.Failure? <==> Parse(FindAll(text, 0)).Failure?
    ensures r.Failure? ==> r.error == Parse(FindAll(text, 0)).error
    ensures r.Success? ==> r.value == HeaderLine + RuleLine + Rows(Parse(FindAll(text, 0)).value)
  {
    var parsed := ParseData(text);
    match parsed {
      case Failure(e) =>
        r := Failure(e);
      case Success(data) =>
        var table := JsonToMdTable(data);
        r := Success(table);
    }
  }

  // ---------------------------------------------------------------- get_args

  function TotalLength<T>(kwargs: seq<(string, seq<T>)>): nat
  {
    if kwargs == [] then 0 else |kwargs[0].1| + TotalLength(kwargs[1..])
  }

  /** `get_args(**kwargs)`: the value lists of a dict, concatenated in the dict's order. */
  function GetArgs<T(!new)>(kwargs: seq<(string, seq<T>)>): (r: seq<T>)
    ensures |r| == TotalLength(kwargs)
    ensures forall x :: x in r <==> exists i :: 0 <= i < |kwargs| && x in kwargs[i].1
  {
    if kwargs == [] then []
    else
      var r := kwargs[0].1 + GetArgs(kwargs[1..]);
      assert forall i :: 1 <= i < |kwargs| ==> kwargs[i] == kwargs[1..][i - 1];
      r
  }

  /** A dict of one keyword gives its value list as it is. */
  lemma GetArgsSingle<T(!new)>(k: string, l: seq<T>)
    ensures GetArgs([(k, l)]) == l
  {
    assert [(k, l)][1..] == [];
    assert l + [] == l;
  }

  /** The order of the dict is kept: the lists of a longer dict follow those of its first part. */
  lemma {:induction false} GetArgsAppend<T(!new)>(a: seq<(string, seq<T>)>, b: seq<(string, seq<T>)>)
    ensures GetArgs(a + b) == GetArgs(a) + GetArgs(b)
    decreases |a|
  {
    if a == [] {
      assert a + b == b;
    } else {
      assert (a + b)[0] == a[0] && (a + b)[1..] == a[1..] + b;
      GetArgsAppend(a[1..], b);
    }
  }
}
