/**
 * Section location.  Every extractor in resume_parser.py inlines a regex of the shape
 *
 *     (?:START1|START2|...).*?(\n.*?)(?=(?:STOP1|STOP2|...|$))     DOTALL | IGNORECASE
 *
 * and reads group 1.  The model gives the one shape a name, `SectionRegex`, and each
 * extractor its own keyword lists.  Group 1 starts at the first newline after the
 * first start keyword and stops at the first position after that newline where a
 * stop keyword begins, or at `$` (the end of the text, or just before a final
 * newline).  Keywords contain no newline, so when no newline follows the first start
 * keyword none follows a later one either, and the search fails.
 */
module Sections {
  import opened Wrappers
  import opened Text
  import opened Patterns

  datatype SectionRegex = SectionRegex(starts: seq<string>, stops: seq<string>)

  /** resume_parser.py:90-94 */
  const EducationRegex := SectionRegex(["EDUCATION"], ["EXPERIENCE", "PROJECTS", "CERTIFICATIONS", "SKILLS"])
  /** resume_parser.py:150-154 */
  const ExperienceRegex := SectionRegex(["EXPERIENCE", "PROJECTS", "WORK HISTORY"], ["CERTIFICATIONS", "SKILLS", "EDUCATION"])
  /** resume_parser.py:183-187 */
  const CertificationRegex := SectionRegex(["CERTIFICATIONS", "INTERNSHIPS", "TRAINING"], ["SKILLS", "EDUCATION"])
  /** resume_parser.py:229-233 */
  const SkillsRegex := SectionRegex(["SKILLS", "TECHNICAL SKILLS"], ["CERTIFICATIONS", "EDUCATION"])

  /** The length of the first alternative of `kws` that occurs at `i`, ignoring case. */
  function KeywordAt(text: string, i: nat, kws: seq<string>): (r: Option<nat>)
    ensures r.Some? ==> i + r.value <= |text|
  {
    if kws == [] then None
    else if OccursCI(text, kws[0], i) then Some(|kws[0]|)
    else KeywordAt(text, i, kws[1..])
  }

  /** A keyword list matches at `i` exactly when one of its keywords occurs there, and then the earliest listed one is taken. */
  lemma {:induction false} KeywordAtMeaning(text: string, i: nat, kws: seq<string>)
    ensures KeywordAt(text, i, kws).Some? <==> exists n :: 0 <= n < |kws| && OccursCI(text, kws[n], i)
    ensures KeywordAt(text, i, kws).Some? ==>
      exists n :: (&& 0 <= n < |kws| && OccursCI(text, kws[n], i)
                   && KeywordAt(text, i, kws).value == |kws[n]|
                   && forall m :: 0 <= m < n ==> !OccursCI(text, kws[m], i))
    decreases |kws|
  {
    if kws != [] && !OccursCI(text, kws[0], i) {
      KeywordAtMeaning(text, i, kws[1..]);
      assert forall n :: 1 <= n < |kws| ==> kws[n] == kws[1..][n - 1];
      if KeywordAt(text, i, kws).Some? {
        var n :| 0 <= n < |kws[1..]| && OccursCI(text, kws[1..][n], i)
          && KeywordAt(text, i, kws).value == |kws[1..][n]| && forall m :: 0 <= m < n ==> !OccursCI(text, kws[1..][m], i);
        assert OccursCI(text, kws[n + 1], i) && KeywordAt(text, i, kws).value == |kws[n + 1]|;
      }
    }
  }

  /** Where the lookahead `(?=(?:STOP...|$))` succeeds. */
  predicate IsStop(text: string, p: nat, stops: seq<string>) {
    KeywordAt(text, p, stops).Some? || p == |text| || (p + 1 == |text| && text[p] == '\n')
  }

  /** The first position at or after `from` where a start keyword occurs, with its length. */
  function StartFrom(text: string, from: nat, starts: seq<string>): (r: Option<(nat, nat)>)
    requires from <= |text| + 1
    ensures r.Some? ==> from <= r.value.0 <= |text| && KeywordAt(text, r.value.0, starts) == Some(r.value.1)
    decreases |text| + 1 - from
  {
    if from > |text| then None
    else match KeywordAt(text, from, starts)
      case Some(n) => Some((from, n))
      case None => StartFrom(text, from + 1, starts)
  }

  /** The first newline at or after `from`. */
  function NewlineFrom(text: string, from: nat): (r: Option<nat>)
    requires from <= |text|
    ensures r.Some? ==> from <= r.value < |text| && text[r.value] == '\n'
    decreases |text| - from
  {
    if from == |text| then None
    else if text[from] == '\n' then Some(from)
    else NewlineFrom(text, from + 1)
  }

  /** The first position at or after `from` where the stop lookahead succeeds. */
  function StopFrom(text: string, from: nat, stops: seq<string>): (r: nat)
    requires from <= |text|
    ensures from <= r <= |text| && IsStop(text, r, stops)
    decreases |text| - from
  {
    if IsStop(text, from, stops) then from else StopFrom(text, from + 1, stops)
  }

  /**
   * The part of the match after the start keyword, which ends at `from`: the newline
   * that opens group 1 and the position where the stop lookahead first succeeds.
   */
  function SpanAfter(text: string, from: nat, stops: seq<string>): (r: Option<(nat, nat)>)
    requires from <= |text|
    ensures r.Some? ==> from <= r.value.0 < r.value.1 <= |text| && text[r.value.0] == '\n'
  {
    match NewlineFrom(text, from)
    case None => None
    case Some(lo) => Some((lo, StopFrom(text, lo + 1, stops)))
  }

  /**
   * The span `(lo, hi)` of group 1: `text[lo]` is the newline that opens the body and
   * `text[hi]` the start of the stop keyword (or the end), or `None` when the section
   * regex does not match.
   */
  function SectionSpan(text: string, re: SectionRegex): (r: Option<(nat, nat)>)
    ensures r.Some? ==> r.value.0 < r.value.1 <= |text| && text[r.value.0] == '\n'
  {
    var start := StartFrom(text, 0, re.starts);
    if start.None? then None else SpanAfter(text, start.value.0 + start.value.1, re.stops)
  }

  /** Group 1 of the section regex, the text the extractor scans. */
  function SectionBody(text: string, re: SectionRegex): (r: Option<string>)
    ensures r.Some? ==> |r.value| >= 1 && r.value[0] == '\n'
  {
    match SectionSpan(text, re)
    case None => None
    case Some((lo, hi)) => Some(text[lo..hi])
  }

  // ---------------------------------------------------------------- the scans find the first position

  /** No start keyword occurs before the one `StartFrom` finds, and none at all when it finds none. */
  lemma {:induction false} StartFromFirst(text: string, from: nat, starts: seq<string>)
    requires from <= |text| + 1
    ensures StartFrom(text, from, starts).Some? ==>
      forall j :: from <= j < StartFrom(text, from, starts).value.0 ==> KeywordAt(text, j, starts).None?
    ensures StartFrom(text, from, starts).None? ==> forall j :: from <= j <= |text| ==> KeywordAt(text, j, starts).None?
    decreases |text| + 1 - from
  {
    if from <= |text| && KeywordAt(text, from, starts).None? {
      StartFromFirst(text, from + 1, starts);
    }
  }

  /** `StartFrom` finds the first keyword position. */
  lemma {:induction false} StartFromIs(text: string, from: nat, starts: seq<string>, k: nat)
    requires from <= k <= |text| && KeywordAt(text, k, starts).Some?
    requires forall j :: from <= j < k ==> KeywordAt(text, j, starts).None?
    ensures StartFrom(text, from, starts) == Some((k, KeywordAt(text, k, starts).value))
    decreases k - from
  {
    if from < k {
      StartFromIs(text, from + 1, starts, k);
    }
  }

  /** `StartFrom` finds nothing when no keyword occurs. */
  lemma {:induction false} NoStart(text: string, from: nat, starts: seq<string>)
    requires from <= |text| + 1
    requires forall j :: from <= j <= |text| ==> KeywordAt(text, j, starts).None?
    ensures StartFrom(text, from, starts).None?
    decreases |text| + 1 - from
  {
    if from <= |text| {
      NoStart(text, from + 1, starts);
    }
  }

  /** No newline comes before the one `NewlineFrom` finds, and none at all when it finds none. */
  lemma {:induction false} NewlineFromFirst(text: string, from: nat)
    requires from <= |text|
    ensures NewlineFrom(text, from).Some? ==> forall j :: from <= j < NewlineFrom(text, from).value ==> text[j] != '\n'
    ensures NewlineFrom(text, from).None? ==> forall j :: from <= j < |text| ==> text[j] != '\n'
    decreases |text| - from
  {
    if from < |text| && text[from] != '\n' {
      NewlineFromFirst(text, from + 1);
    }
  }

  /** `NewlineFrom` finds the first newline. */
  lemma {:induction false} NewlineFromIs(text: string, from: nat, lo: nat)
    requires from <= lo <= |text|
    requires lo < |text| ==> text[lo] == '\n'
    requires forall j :: from <= j < lo ==> text[j] != '\n'
    ensures NewlineFrom(text, from) == if lo < |text| then Some(lo) else None
    decreases lo - from
  {
    if from < lo {
      NewlineFromIs(text, from + 1, lo);
    }
  }

  /** The stop lookahead fails everywhere before the position `StopFrom` finds. */
  lemma {:induction false} StopFromFirst(text: string, from: nat, stops: seq<string>)
    requires from <= |text|
    ensures forall p :: from <= p < StopFrom(text, from, stops) ==> !IsStop(text, p, stops)
    decreases |text| - from
  {
    if !IsStop(text, from, stops) {
      StopFromFirst(text, from + 1, stops);
    }
  }

  /** `StopFrom` finds the first stop. */
  lemma {:induction false} StopFromIs(text: string, from: nat, hi: nat, stops: seq<string>)
    requires from <= hi <= |text| && IsStop(text, hi, stops)
    requires forall p :: from <= p < hi ==> !IsStop(text, p, stops)
    ensures StopFrom(text, from, stops) == hi
    decreases hi - from
  {
    if from < hi {
      StopFromIs(text, from + 1, hi, stops);
    }
  }

  /** The match after the keyword: the first newline, then the first stop after it. */
  lemma SpanAfterMeaning(text: string, from: nat, stops: seq<string>)
    requires from <= |text|
    ensures SpanAfter(text, from, stops).None? <==> forall j :: from <= j < |text| ==> text[j] != '\n'
    ensures SpanAfter(text, from, stops).Some? ==>
      var (lo, hi) := SpanAfter(text, from, stops).value;
      && (forall j :: from <= j < lo ==> text[j] != '\n')
      && IsStop(text, hi, stops)
      && forall p :: lo < p < hi ==> !IsStop(text, p, stops)
  {
    NewlineFromFirst(text, from);
    var nl := NewlineFrom(text, from);
    if nl.Some? {
      StopFromFirst(text, nl.value + 1, stops);
    } else {
      assert SpanAfter(text, from, stops).None?;
    }
  }

  /** The span of a match, once the first start keyword is known. */
  lemma SpanAfterStart(text: string, re: SectionRegex, k: nat, n: nat)
    requires StartFrom(text, 0, re.starts) == Some((k, n))
    ensures k + n <= |text| && SectionSpan(text, re) == SpanAfter(text, k + n, re.stops)
  {
  }

  /**
   * What the match of a section regex is: no match without a start keyword; otherwise
   * group 1 opens at the first newline after the first start keyword (no match when
   * there is none) and ends where the stop lookahead first succeeds after it.
   */
  lemma SectionSpanMeaning(text: string, re: SectionRegex)
    ensures StartFrom(text, 0, re.starts).None? ==> SectionSpan(text, re).None?
    ensures StartFrom(text, 0, re.starts).Some? ==>
      var (k, n) := StartFrom(text, 0, re.starts).value;
      && (SectionSpan(text, re).None? <==> forall j :: k + n <= j < |text| ==> text[j] != '\n')
      && (SectionSpan(text, re).Some? ==>
            var (lo, hi) := SectionSpan(text, re).value;
            && k + n <= lo && (forall j :: k + n <= j < lo ==> text[j] != '\n')
            && IsStop(text, hi, re.stops)
            && forall p :: lo < p < hi ==> !IsStop(text, p, re.stops))
  {
    var start := StartFrom(text, 0, re.starts);
    if start.Some? {
      var (k, n) := start.value;
      SpanAfterStart(text, re, k, n);
      SpanAfterMeaning(text, k + n, re.stops);
    }
  }

  /** The scan for the first start keyword. */
  method FirstStart(text: string, starts: seq<string>) returns (r: Option<(nat, nat)>)
    ensures r == StartFrom(text, 0, starts)
  {
    var k := 0;
    while k <= |text| && KeywordAt(text, k, starts).None?
      invariant 0 <= k <= |text| + 1
      invariant forall j :: 0 <= j < k ==> KeywordAt(text, j, starts).None?
    {
      k := k + 1;
    }
    if k > |text| {
      NoStart(text, 0, starts);
      return None;
    }
    StartFromIs(text, 0, starts, k);
    r := Some((k, KeywordAt(text, k, starts).value));
  }

  /** The scan for the first newline at or after `from`. */
  method FirstNewline(text: string, from: nat) returns (r: Option<nat>)
    requires from <= |text|
    ensures r == NewlineFrom(text, from)
  {
    var lo := from;
    while lo < |text| && text[lo] != '\n'
      invariant from <= lo <= |text|
      invariant forall j :: from <= j < lo ==> text[j] != '\n'
    {
      lo := lo + 1;
    }
    NewlineFromIs(text, from, lo);
    r := if lo < |text| then Some(lo) else None;
  }

  /** The scan for the first position at or after `from` where the lookahead succeeds. */
  method FirstStop(text: string, from: nat, stops: seq<string>) returns (hi: nat)
    requires from <= |text|
    ensures hi == StopFrom(text, from, stops)
  {
    hi := from;
    while !IsStop(text, hi, stops)
      invariant from <= hi <= |text|
      invariant forall p :: from <= p < hi ==> !IsStop(text, p, stops)
      decreases |text| - hi
    {
      hi := hi + 1;
    }
    StopFromIs(text, from, hi, stops);
  }

  /** The scans for the newline and the stop that follow the start keyword. */
  method FindSpanAfter(text: string, from: nat, stops: seq<string>) returns (span: Option<(nat, nat)>)
    requires from <= |text|
    ensures span == SpanAfter(text, from, stops)
  {
    var nl := FirstNewline(text, from);
    if nl.None? {
      return None;
    }
    var hi := FirstStop(text, nl.value + 1, stops);
    span := Some((nl.value, hi));
  }

  /** The section search, as a scan for the start, the newline and the stop. */
  method FindSection(text: string, re: SectionRegex) returns (span: Option<(nat, nat)>)
    ensures span == SectionSpan(text, re)
  {
    var start := FirstStart(text, re.starts);
    if start.None? {
      return None;
    }
    var (k, n) := start.value;
    SpanAfterStart(text, re, k, n);
    span := FindSpanAfter(text, k + n, re.stops);
  }

  /** The method form of `SectionBody`. */
  method FindSectionBody(text: string, re: SectionRegex) returns (body: Option<string>)
    ensures body == SectionBody(text, re)
  {
    var span := FindSection(text, re);
    body := match span case None => None case Some((lo, hi)) => Some(text[lo..hi]);
  }
}
