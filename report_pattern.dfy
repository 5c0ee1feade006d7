/**
 * What `re.finditer` yields for the pattern of `parse_data` (utils/functions.py:44),
 *
 *   (?P<number>\d+)\.\s+\*\*(?P<section>.+?)\*\*:\s+(?P<content>.+?)(?=\n\d+\.\s+\*\*|$)
 *
 * compiled with DOTALL (so `.` also matches a newline) and without MULTILINE
 * (so `$` holds only at the end of the text and just before a newline that
 * ends it). The backtracking of the regex engine is written out: greedy runs
 * take the longest run, lazy groups take the shortest length that lets the
 * rest of the pattern match.
 */
module ReportPattern {
  import opened Wrappers
  import opened Text

  /** One match: its three named groups. */
  datatype Match = Match(number: string, section: string, content: string)

  /** `\n\d+\.\s+\*\*` matches at position `e`: the start of the next numbered item. */
  predicate ItemStartAt(t: string, e: nat)
    requires e <= |t|
  {
    && e < |t| && t[e] == '\n'
    && var d := DigitRunEnd(t, e + 1);
    && d > e + 1 && d < |t| && t[d] == '.'
    && var w := SpaceRunEnd(t, d + 1);
    && w > d + 1 && w + 1 < |t| && t[w] == '*' && t[w + 1] == '*'
  }

  /** The lookahead `(?=\n\d+\.\s+\*\*|$)` holds at position `e`. */
  predicate ContentMayEndAt(t: string, e: nat)
    requires e <= |t|
  {
    e == |t| || (e == |t| - 1 && t[e] == '\n') || ItemStartAt(t, e)
  }

  /** The end of a lazy `.+?` followed by the lookahead: the first position from `e` on where the lookahead holds. */
  function ContentEnd(t: string, e: nat): (r: nat)
    requires e <= |t|
    ensures e <= r <= |t|
    decreases |t| - e
  {
    if ContentMayEndAt(t, e) then e else ContentEnd(t, e + 1)
  }

  /** The lookahead holds where `ContentEnd` stops and nowhere before it. */
  lemma {:induction false} ContentEndIsFirst(t: string, e: nat)
    requires e <= |t|
    ensures ContentMayEndAt(t, ContentEnd(t, e))
    ensures forall k :: e <= k < ContentEnd(t, e) ==> !ContentMayEndAt(t, k)
    decreases |t| - e
  {
    if !ContentMayEndAt(t, e) {
      ContentEndIsFirst(t, e + 1);
    }
  }

  /**
   * `\s+(?P<content>.+?)(?=...)` tried at `s`: the start and end of the content.
   * When the whitespace runs to the end of the text, the greedy `\s+` gives back
   * one character so that the content can match it.
   */
  function BodyAt(t: string, s: nat): (r: Option<(nat, nat)>)
    requires s <= |t|
    ensures r.Some? ==> s < r.value.0 < r.value.1 <= |t|
    ensures r.None? <==> s == |t| || !IsSpace(t[s]) || (SpaceRunEnd(t, s) == |t| && |t| - s < 2)
  {
    var w := SpaceRunEnd(t, s);
    if w == s then None
    else if w < |t| then Some((w, ContentEnd(t, w + 1)))
    else if w - s >= 2 then Some((|t| - 1, |t|))
    else None
  }

  /** A body is whitespace, then content that runs up to the first place where the lookahead holds. */
  lemma BodyAtShape(t: string, s: nat)
    requires s <= |t| && BodyAt(t, s).Some?
    ensures var (c, e) := BodyAt(t, s).value;
            && (forall k :: s <= k < c ==> IsSpace(t[k]))
            && ContentMayEndAt(t, e)
            && (forall k :: c < k < e ==> !ContentMayEndAt(t, k))
  {
    SpaceRun(t, s);
    var w := SpaceRunEnd(t, s);
    if w < |t| {
      ContentEndIsFirst(t, w + 1);
    }
  }

  /** `\*\*:` followed by a body that matches, at `k`. */
  predicate SectionCloseAt(t: string, k: nat)
    requires k <= |t|
  {
    k + 3 <= |t| && t[k] == '*' && t[k + 1] == '*' && t[k + 2] == ':' && BodyAt(t, k + 3).Some?
  }

  /** The lazy `(?P<section>.+?)`: the first position from `k` on where the rest of the pattern matches. */
  function SectionEnd(t: string, k: nat): (r: Option<nat>)
    requires k <= |t|
    ensures r.Some? ==> k <= r.value <= |t| && SectionCloseAt(t, r.value)
    decreases |t| - k
  {
    if k + 3 > |t| then None
    else if SectionCloseAt(t, k) then Some(k)
    else SectionEnd(t, k + 1)
  }

  /** The section is the shortest one that lets the rest of the pattern match, and there is none when no close follows. */
  lemma {:induction false} SectionEndIsFirst(t: string, k: nat)
    requires k <= |t|
    ensures SectionEnd(t, k).Some? ==> forall j :: k <= j < SectionEnd(t, k).value ==> !SectionCloseAt(t, j)
    ensures SectionEnd(t, k).None? ==> forall j :: k <= j <= |t| ==> !SectionCloseAt(t, j)
    decreases |t| - k
  {
    if k + 3 <= |t| && !SectionCloseAt(t, k) {
      SectionEndIsFirst(t, k + 1);
    }
  }

  /**
   * `(?P<number>\d+)\.\s+\*\*` tried at `p`: the end `d` of the digits and the
   * position `w` of the `**`, when the greedy runs leave room for a section.
   */
  function HeadAt(t: string, p: nat): (r: Option<(nat, nat)>)
    requires p <= |t|
    ensures r.Some? ==> p < r.value.0 < r.value.1 && r.value.1 + 3 <= |t|
    ensures r.Some? ==> IsAllDigits(t[p..r.value.0])
  {
    var d := DigitRunEnd(t, p);
    if d == p || d == |t| || t[d] != '.' then None
    else
      var w := SpaceRunEnd(t, d + 1);
      if w == d + 1 || w + 3 > |t| || t[w] != '*' || t[w + 1] != '*' then None
      else
        DigitRun(t, p);
        Some((d, w))
  }

  /**
   * The head and the lazy section tried at `p`: the end `d` of the digits, the
   * position `w` of the opening `**` and the position `k` of the closing `**:`.
   */
  function PlanAt(t: string, p: nat): (r: Option<(nat, nat, nat)>)
    requires p <= |t|
    ensures r.Some? ==> p < r.value.0 < r.value.1 && r.value.1 + 3 <= r.value.2 <= |t| && SectionCloseAt(t, r.value.2)
    ensures r.Some? ==> IsAllDigits(t[p..r.value.0])
  {
    match HeadAt(t, p)
    case None => None
    case Some((d, w)) =>
      match SectionEnd(t, w + 3)
      case None => None
      case Some(k) => Some((d, w, k))
  }

  /** The match of the whole pattern tried at position `p`, with the position where it ends. */
  function MatchAt(t: string, p: nat): (r: Option<(Match, nat)>)
    requires p <= |t|
    ensures r.Some? ==> p < r.value.1 <= |t|
    ensures r.Some? ==> IsAllDigits(r.value.0.number) && r.value.0.section != [] && r.value.0.content != []
  {
    match PlanAt(t, p)
    case None => None
    case Some((d, w, k)) =>
      var (c, e) := BodyAt(t, k + 3).value;
      Some((Match(t[p..d], t[w + 2..k], t[c..e]), e))
  }

  /** A match's content and end are those of the body tried at some position `s` after its section. */
  lemma MatchAtBody(t: string, p: nat) returns (s: nat)
    requires p <= |t| && MatchAt(t, p).Some?
    ensures s <= |t| && BodyAt(t, s).Some?
    ensures MatchAt(t, p).value.1 == BodyAt(t, s).value.1
    ensures MatchAt(t, p).value.0.content == t[BodyAt(t, s).value.0..BodyAt(t, s).value.1]
  {
    s := PlanAt(t, p).value.2 + 3;
  }

  /**
   * The content of a match is the text just before where the match ends, and it
   * ends at the first place from its second character on where the next
   * numbered item starts or the text ends: unnumbered lines are absorbed.
   */
  lemma MatchContentEnds(t: string, p: nat)
    requires p <= |t| && MatchAt(t, p).Some?
    ensures var (m, e) := MatchAt(t, p).value;
            && |m.content| <= e && m.content == t[e - |m.content|..e]
            && ContentMayEndAt(t, e)
            && (forall k :: e - |m.content| < k < e ==> !ContentMayEndAt(t, k))
  {
    var s := MatchAtBody(t, p);
    var (c, e) := BodyAt(t, s).value;
    BodyAtShape(t, s);
    var m := MatchAt(t, p).value.0;
    assert m.content == t[c..e] && e - |m.content| == c;
  }

  /** `re.finditer(pattern, t[p..], re.DOTALL)`: scan left to right, resuming after each match. */
  function FindAll(t: string, p: nat): (r: seq<Match>)
    requires p <= |t|
    ensures forall i :: 0 <= i < |r| ==> IsAllDigits(r[i].number) && r[i].section != [] && r[i].content != []
    decreases |t| - p
  {
    if p == |t| then []
    else
      match MatchAt(t, p)
      case Some((m, e)) => [m] + FindAll(t, e)
      case None => FindAll(t, p + 1)
  }

  /** The `[start, end)` spans of the matches `FindAll(t, p)` yields, found by the same scan. */
  function Spans(t: string, p: nat): (r: seq<(nat, nat)>)
    requires p <= |t|
    ensures forall i :: 0 <= i < |r| ==> p <= r[i].0 < r[i].1 <= |t|
    decreases |t| - p
  {
    if p == |t| then []
    else
      match MatchAt(t, p)
      case Some((m, e)) => [(p, e)] + Spans(t, e)
      case None => Spans(t, p + 1)
  }

  /** One step of the scan: a match at `p` is yielded and the scan resumes where it ends. */
  lemma ScanAtMatch(t: string, p: nat, m: Match, e: nat)
    requires p < |t| && MatchAt(t, p) == Some((m, e))
    ensures Spans(t, p) == [(p, e)] + Spans(t, e)
    ensures FindAll(t, p) == [m] + FindAll(t, e)
  {
  }

  /** Where no match starts the scan moves on by one character. */
  lemma ScanPastMatch(t: string, p: nat)
    requires p < |t| && MatchAt(t, p).None?
    ensures Spans(t, p) == Spans(t, p + 1)
    ensures FindAll(t, p) == FindAll(t, p + 1)
  {
  }

  /** The i-th match is `MatchAt` tried at the i-th span's start, and ends at its end. */
  lemma {:induction false} SpansMatch(t: string, p: nat)
    requires p <= |t|
    ensures |Spans(t, p)| == |FindAll(t, p)|
    ensures forall i :: 0 <= i < |Spans(t, p)| ==> MatchAt(t, Spans(t, p)[i].0) == Some((FindAll(t, p)[i], Spans(t, p)[i].1))
    decreases |t| - p
  {
    if p < |t| {
      var r := MatchAt(t, p);
      if r.Some? {
        var (m, e) := r.value;
        SpansMatch(t, e);
        ScanAtMatch(t, p, m, e);
      } else {
        SpansMatch(t, p + 1);
        ScanPastMatch(t, p);
      }
    }
  }

  /** The spans increase and do not overlap: each match ends before the next one starts. */
  lemma {:induction false} SpansOrdered(t: string, p: nat)
    requires p <= |t|
    ensures forall i :: 0 <= i < |Spans(t, p)| - 1 ==> Spans(t, p)[i].1 <= Spans(t, p)[i + 1].0
    decreases |t| - p
  {
    if p < |t| {
      var r := MatchAt(t, p);
      if r.Some? {
        var (m, e) := r.value;
        SpansOrdered(t, e);
        ScanAtMatch(t, p, m, e);
      } else {
        SpansOrdered(t, p + 1);
        ScanPastMatch(t, p);
      }
    }
  }

  /** Position `k` lies inside none of the spans. */
  predicate Uncovered(spans: seq<(nat, nat)>, k: nat)
  {
    forall i :: 0 <= i < |spans| ==> !(spans[i].0 <= k < spans[i].1)
  }

  /** A position from `p` on outside every span lies past the first span `[p, e)`, and outside the later spans too. */
  lemma UncoveredTail(spans: seq<(nat, nat)>, p: nat, e: nat, k: nat)
    requires |spans| > 0 && spans[0] == (p, e) && p <= k && Uncovered(spans, k)
    ensures e <= k && Uncovered(spans[1..], k)
  {
    forall i | 0 <= i < |spans| - 1 ensures !(spans[1..][i].0 <= k < spans[1..][i].1) {
      assert spans[1..][i] == spans[i + 1];
    }
  }

  /** The scan misses nothing: no match starts at a position from `p` on that lies inside no span. */
  lemma {:induction false} SpansSkipNoMatch(t: string, p: nat, k: nat)
    requires p <= k < |t| && Uncovered(Spans(t, p), k)
    ensures MatchAt(t, k).None?
    decreases |t| - p
  {
    var r := MatchAt(t, p);
    if r.Some? {
      var (m, e) := r.value;
      var spans := Spans(t, p);
      ScanAtMatch(t, p, m, e);
      UncoveredTail(spans, p, e, k);
      assert spans[1..] == Spans(t, e);
      SpansSkipNoMatch(t, e, k);
    } else if k > p {
      ScanPastMatch(t, p);
      SpansSkipNoMatch(t, p + 1, k);
    }
  }
}
