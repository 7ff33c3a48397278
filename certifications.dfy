/**
 * `extract_certifications` (resume_parser.py:175-216): one pass over the lines of the
 * certifications section with a three-state "current bucket".  Header lines switch the
 * bucket and are dropped; every other non-blank line is cleaned and appended to the
 * active bucket, or dropped when no bucket is active yet.
 */
module Certifications {
  import opened Wrappers
  import opened Text
  import opened Sections
  import opened Seqs

  datatype Bucket = NoBucket | CertificationsBucket | InternshipsBucket

  /** The result dictionary, which always has exactly these two keys. */
  datatype CertRecord = CertRecord(certifications: seq<string>, internships: seq<string>)

  /** The loop's state: `current` and `result`. */
  datatype ScanState = ScanState(current: Bucket, result: CertRecord)

  const Initial := ScanState(NoBucket, CertRecord([], []))

  const Bullets: set<char> := {'•', '-', '*'}

  /** The bucket a (stripped) header line selects; `CERTIFICATIONS` is checked first. */
  function HeaderOf(line: string): Option<Bucket> {
    if Contains(Upper(line), "CERTIFICATIONS") then Some(CertificationsBucket)
    else if Contains(Upper(line), "INTERNSHIPS") then Some(InternshipsBucket)
    else None
  }

  predicate IsHeaderLine(raw: string) {
    HeaderOf(Strip(raw)).Some?
  }

  /** A stored item: non-empty, starting with no white space, single blanks only, no final `.`/`,`. */
  predicate WellFormedItem(x: string) {
    && x != []
    && !IsSpace(x[0])
    && x[|x| - 1] !in {'.', ','}
    && (forall i :: 0 <= i < |x| && IsSpace(x[i]) ==> x[i] == ' ')
    && (forall i :: 0 <= i < |x| - 1 ==> !(x[i] == ' ' && x[i + 1] == ' '))
  }

  /** Lines 205-206: the line with one leading bullet and the white space around the rest removed. */
  function Unbulleted(line: string): string
    requires line != []
  {
    if line[0] in Bullets then Strip(line[1..]) else line
  }

  /** Lines 205-210: drop one leading bullet, collapse white space, trim final `.`/`,`. */
  function CleanItem(line: string): (r: string)
    requires line != [] && IsStripped(line)
    ensures r == [] || WellFormedItem(r)
    ensures line[0] !in Bullets && WellFormedItem(line) ==> r == line
  {
    var unbulleted := Unbulleted(line);
    assert line[0] !in Bullets && WellFormedItem(line) ==> Collapse(line) == line by {
      if line[0] !in Bullets && WellFormedItem(line) { CollapseFixpoint(line); }
    }
    var collapsed := Collapse(unbulleted);
    var r := RStripChars(collapsed, Trailing);
    assert r != [] ==> r[0] == collapsed[0];
    r
  }

  /** Line 210's `rstrip('.,')`. */
  const Trailing: set<char> := {'.', ','}

  /** The cleaning steps after the bullet: collapse white space, then trim final `.`/`,`. */
  lemma CleanItemSteps(line: string)
    requires line != [] && IsStripped(line)
    ensures CleanItem(line) == RStripChars(Collapse(Unbulleted(line)), Trailing)
  {
  }

  /** Collapsing and trimming give nothing exactly when the text holds only `.` and `,`. */
  lemma TidyEmpty(u: string)
    ensures RStripChars(Collapse(u), Trailing) == [] <==> forall k :: 0 <= k < |u| ==> u[k] in Trailing
  {
    if forall k :: 0 <= k < |u| ==> u[k] in Trailing {
      CollapseFixpoint(u);
    } else {
      var k :| 0 <= k < |u| && u[k] !in Trailing;
      if IsSpace(u[k]) {
        TidyKeepsSpace(u, k);
      } else {
        TidyKeepsOther(u, k);
      }
    }
  }

  lemma TidyKeepsSpace(u: string, k: nat)
    requires k < |u| && IsSpace(u[k])
    ensures RStripChars(Collapse(u), Trailing) != []
  {
    var c := Collapse(u);
    CollapseHasSpace(u, k);
    var j :| 0 <= j < |c| && c[j] == ' ';
    TrimNonEmpty(c, j);
  }

  lemma TidyKeepsOther(u: string, k: nat)
    requires k < |u| && !IsSpace(u[k]) && u[k] !in Trailing
    ensures RStripChars(Collapse(u), Trailing) != []
  {
    var c := Collapse(u);
    CollapseKeepsText(u);
    NonSpaceHas(u, k);
    NonSpaceFrom(c, u[k]);
    var j :| 0 <= j < |c| && c[j] == u[k];
    TrimNonEmpty(c, j);
  }

  /** A character other than `.` and `,` survives the trim. */
  lemma TrimNonEmpty(c: string, j: nat)
    requires j < |c| && c[j] !in Trailing
    ensures RStripChars(c, Trailing) != []
  {
    TrimKeepsText(c);
  }

  /**
   * An item is cleaned away exactly when, past its bullet, the line holds nothing but
   * `.` and `,`.
   */
  lemma CleanItemEmpty(line: string)
    requires line != [] && IsStripped(line)
    ensures CleanItem(line) == [] <==> forall k :: 0 <= k < |Unbulleted(line)| ==> Unbulleted(line)[k] in Trailing
  {
    CleanItemSteps(line);
    TidyEmpty(Unbulleted(line));
  }

  /** `rstrip('.,')` removes only `.` and `,`, which are not white space. */
  lemma TrimKeepsText(c: string)
    ensures NonSpace(c) == NonSpace(RStripChars(c, Trailing)) + c[|RStripChars(c, Trailing)|..]
    ensures forall k :: |RStripChars(c, Trailing)| <= k < |c| ==> c[k] in Trailing
    ensures forall k :: 0 <= k < |c| - |RStripChars(c, Trailing)| ==> c[|RStripChars(c, Trailing)|..][k] in Trailing
  {
    var r := RStripChars(c, Trailing);
    var t := c[|r|..];
    assert c == r + t;
    forall k | 0 <= k < |t| ensures !IsSpace(t[k]) {
      assert t[k] == c[|r| + k] && c[|r| + k] in Trailing;
    }
    NonSpaceAppend(r, t);
    NonSpaceNoSpace(t);
  }

  /** Collapsing and trimming keep the characters other than white space, less a tail of `.` and `,`. */
  lemma TidyKeepsText(u: string)
    ensures |NonSpace(RStripChars(Collapse(u), Trailing))| <= |NonSpace(u)|
    ensures NonSpace(u) == NonSpace(RStripChars(Collapse(u), Trailing)) + NonSpace(u)[|NonSpace(RStripChars(Collapse(u), Trailing))|..]
    ensures forall k :: |NonSpace(RStripChars(Collapse(u), Trailing))| <= k < |NonSpace(u)| ==> NonSpace(u)[k] in Trailing
  {
    var c := Collapse(u);
    CollapseKeepsText(u);
    TrimKeepsText(c);
    var r := RStripChars(c, Trailing);
    KeptThenTrailing(NonSpace(u), NonSpace(r), c[|r|..]);
  }

  lemma KeptThenTrailing(x: string, a: string, t: string)
    requires x == a + t && forall k :: 0 <= k < |t| ==> t[k] in Trailing
    ensures |a| <= |x| && x == a + x[|a|..]
    ensures forall k :: |a| <= k < |x| ==> x[k] in Trailing
  {
    assert x[|a|..] == t;
    forall k | |a| <= k < |x| ensures x[k] in Trailing {
      assert x[k] == t[k - |a|];
    }
  }

  /**
   * The cleaned item keeps the text of the line: its characters other than white space
   * are those of the line past its bullet, in order, less a tail of `.` and `,`.
   */
  lemma CleanItemKeepsText(line: string)
    requires line != [] && IsStripped(line)
    ensures |NonSpace(CleanItem(line))| <= |NonSpace(Unbulleted(line))|
    ensures NonSpace(Unbulleted(line)) == NonSpace(CleanItem(line)) + NonSpace(Unbulleted(line))[|NonSpace(CleanItem(line))|..]
    ensures forall k :: |NonSpace(CleanItem(line))| <= k < |NonSpace(Unbulleted(line))| ==> NonSpace(Unbulleted(line))[k] in Trailing
  {
    CleanItemSteps(line);
    TidyKeepsText(Unbulleted(line));
  }

  function Append(rec: CertRecord, b: Bucket, item: string): CertRecord {
    match b
    case CertificationsBucket => rec.(certifications := rec.certifications + [item])
    case InternshipsBucket => rec.(internships := rec.internships + [item])
    case NoBucket => rec
  }

  /** How the loop reads one line. */
  datatype CertLine = Blank | Header(bucket: Bucket) | Entry(item: string)

  /** The reading of one raw line (lines 192-210): blank, a header, or a cleaned entry. */
  function ReadLine(raw: string): (r: CertLine)
    ensures r.Blank? <==> Strip(raw) == []
    ensures r.Header? <==> IsHeaderLine(raw)
    ensures r.Header? ==> r.bucket != NoBucket
    ensures r.Entry? ==> r.item == [] || WellFormedItem(r.item)
  {
    var line := Strip(raw);
    if line == [] then Blank
    else match HeaderOf(line)
      case Some(b) => Header(b)
      case None => Entry(CleanItem(line))
  }

  function ReadLines(lines: seq<string>): (r: seq<CertLine>)
    ensures |r| == |lines| && forall j :: 0 <= j < |lines| ==> r[j] == ReadLine(lines[j])
  {
    seq(|lines|, j requires 0 <= j < |lines| => ReadLine(lines[j]))
  }

  /** One iteration of the loop at lines 191-214. */
  function Step(st: ScanState, l: CertLine): ScanState {
    match l
    case Blank => st
    case Header(b) => ScanState(b, st.result)
    case Entry(item) =>
      if st.current != NoBucket && item != [] then ScanState(st.current, Append(st.result, st.current, item))
      else st
  }

  /** The loop over the readings `ls`, from state `st`. */
  function Run(st: ScanState, ls: seq<CertLine>): ScanState
    decreases |ls|
  {
    if ls == [] then st else Step(Run(st, ls[..|ls| - 1]), ls[|ls| - 1])
  }

  lemma RunSnoc(st: ScanState, ls: seq<CertLine>, i: nat)
    requires i < |ls|
    ensures Run(st, ls[..i + 1]) == Step(Run(st, ls[..i]), ls[i])
  {
    assert ls[..i + 1][..i] == ls[..i];
  }

  /** What `extract_certifications(text)` returns. */
  function CertificationsOf(text: string): CertRecord {
    match SectionBody(text, CertificationRegex)
    case None => CertRecord([], [])
    case Some(body) => Run(Initial, ReadLines(Lines(body))).result
  }

  /** The body of the loop at lines 192-214, for one raw line. */
  method ProcessLine(current: Bucket, result: CertRecord, raw: string) returns (current': Bucket, result': CertRecord)
    ensures ScanState(current', result') == Step(ScanState(current, result), ReadLine(raw))
  {
    current', result' := current, result;
    var line := Strip(raw);
    if line != [] {
      if Contains(Upper(line), "CERTIFICATIONS") {
        current' := CertificationsBucket;
      } else if Contains(Upper(line), "INTERNSHIPS") {
        current' := InternshipsBucket;
      } else {
        var item := line;
        if item[0] in Bullets {
          item := Strip(item[1..]);
        }
        item := Collapse(item);
        item := RStripChars(item, Trailing);
        assert ReadLine(raw) == Entry(item);
        if current != NoBucket && item != [] {
          if current == CertificationsBucket {
            result' := result.(certifications := result.certifications + [item]);
          } else {
            result' := result.(internships := result.internships + [item]);
          }
        }
      }
    }
  }

  method ExtractCertifications(text: string) returns (result: CertRecord)
    ensures result == CertificationsOf(text)
    ensures SectionBody(text, CertificationRegex).None? ==> result.certifications == [] && result.internships == []
  {
    result := CertRecord([], []);
    var body := FindSectionBody(text, CertificationRegex);
    if body.Some? {
      var current := NoBucket;
      var lines := Lines(body.value);
      ghost var ls := ReadLines(lines);
      assert ls[..0] == [];
      var i := 0;
      while i < |lines|
        invariant 0 <= i <= |lines|
        invariant ScanState(current, result) == Run(Initial, ls[..i])
      {
        RunSnoc(Initial, ls, i);
        assert ls[i] == ReadLine(lines[i]);
        current, result := ProcessLine(current, result, lines[i]);
        i := i + 1;
      }
      TakeAll(ls);
    }
  }

  predicate AllWellFormed(rec: CertRecord) {
    && (forall x :: x in rec.certifications ==> WellFormedItem(x))
    && (forall x :: x in rec.internships ==> WellFormedItem(x))
  }

  /** Readings as `ReadLine` produces them: every non-empty entry is well formed. */
  predicate Readings(ls: seq<CertLine>) {
    forall j :: 0 <= j < |ls| && ls[j].Entry? && ls[j].item != [] ==> WellFormedItem(ls[j].item)
  }

  /** Every stored item went through the cleanup: the scan keeps `AllWellFormed`. */
  lemma {:induction false} RunKeepsItemsWellFormed(st: ScanState, ls: seq<CertLine>)
    requires AllWellFormed(st.result) && Readings(ls)
    ensures AllWellFormed(Run(st, ls).result)
    decreases |ls|
  {
    if ls != [] {
      var init := ls[..|ls| - 1];
      assert forall j :: 0 <= j < |init| ==> init[j] == ls[j];
      RunKeepsItemsWellFormed(st, init);
    }
  }

  /** Every item `extract_certifications` returns is well formed. */
  lemma CertificationItemsWellFormed(text: string)
    ensures AllWellFormed(CertificationsOf(text))
  {
    match SectionBody(text, CertificationRegex)
    case None =>
    case Some(body) => RunKeepsItemsWellFormed(Initial, ReadLines(Lines(body)));
  }

  lemma {:induction false} RunAppend(st: ScanState, a: seq<CertLine>, b: seq<CertLine>)
    ensures Run(st, a + b) == Run(Run(st, a), b)
    decreases |b|
  {
    if b == [] {
      assert a + b == a;
    } else {
      assert (a + b)[..|a + b| - 1] == a + b[..|b| - 1];
      RunAppend(st, a, b[..|b| - 1]);
    }
  }

  /** After a header line, the bucket is the one the last header line named. */
  lemma {:induction false} LastHeaderWins(st: ScanState, ls: seq<CertLine>, k: nat)
    requires k < |ls| && ls[k].Header?
    requires forall j :: k < j < |ls| ==> !ls[j].Header?
    ensures Run(st, ls).current == ls[k].bucket
    decreases |ls|
  {
    if k < |ls| - 1 {
      var init := ls[..|ls| - 1];
      assert forall j :: k < j < |init| ==> init[j] == ls[j];
      LastHeaderWins(st, init, k);
    }
  }

  /** Without a header line the bucket never changes. */
  lemma {:induction false} NoHeaderKeepsBucket(st: ScanState, ls: seq<CertLine>)
    requires forall j :: 0 <= j < |ls| ==> !ls[j].Header?
    ensures Run(st, ls).current == st.current
    decreases |ls|
  {
    if ls != [] {
      var init := ls[..|ls| - 1];
      assert forall j :: 0 <= j < |init| ==> init[j] == ls[j];
      NoHeaderKeepsBucket(st, init);
    }
  }

  /** While no bucket is active, lines other than headers are dropped. */
  lemma {:induction false} NoBucketDropsLines(ls: seq<CertLine>)
    requires forall j :: 0 <= j < |ls| ==> !ls[j].Header?
    ensures Run(Initial, ls) == Initial
    decreases |ls|
  {
    if ls != [] {
      var init := ls[..|ls| - 1];
      assert forall j :: 0 <= j < |init| ==> init[j] == ls[j];
      NoBucketDropsLines(init);
    }
  }

  /**
   * The lines before the first header line of the body contribute nothing: the scan
   * gives the same result as the scan of the rest.
   */
  lemma LinesBeforeFirstHeaderDropped(ls: seq<CertLine>, k: nat)
    requires k <= |ls|
    requires forall j :: 0 <= j < k ==> !ls[j].Header?
    ensures Run(Initial, ls) == Run(Initial, ls[k..])
  {
    var pre := ls[..k];
    assert forall j :: 0 <= j < |pre| ==> pre[j] == ls[j];
    NoBucketDropsLines(pre);
    RunAppend(Initial, pre, ls[k..]);
    assert pre + ls[k..] == ls;
  }

  /** The list a dictionary key names. */
  function Items(rec: CertRecord, b: Bucket): seq<string> {
    match b
    case CertificationsBucket => rec.certifications
    case InternshipsBucket => rec.internships
    case NoBucket => []
  }

  /** `x` is the entry of some line. */
  predicate FromBody(x: string, ls: seq<CertLine>) {
    exists k :: 0 <= k < |ls| && ls[k] == Entry(x)
  }

  /**
   * Every stored item is the cleanup of some body line that is not a header:
   * header lines are never stored.
   */
  lemma {:induction false} ItemsComeFromBodyLines(st: ScanState, ls: seq<CertLine>, b: Bucket)
    ensures forall x :: x in Items(Run(st, ls).result, b) ==> x in Items(st.result, b) || FromBody(x, ls)
    decreases |ls|
  {
    if ls != [] {
      var init := ls[..|ls| - 1];
      var last := ls[|ls| - 1];
      ItemsComeFromBodyLines(st, init, b);
      forall x | FromBody(x, init) ensures FromBody(x, ls) {
        var k :| 0 <= k < |init| && init[k] == Entry(x);
        assert ls[k] == Entry(x);
      }
      if last.Entry? {
        assert ls[|ls| - 1] == Entry(last.item);
      }
    }
  }
}
