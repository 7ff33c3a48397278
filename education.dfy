/**
 * `extract_education` (resume_parser.py:85-143).  The education section is cut into
 * entries; the head line of an entry is the institution and every later line goes
 * through a fixed pipeline: a date range is recorded and removed, then a GPA is
 * recorded and removed, then the first degree line becomes the degree, a coursework
 * line becomes a prefixed detail, and any other line without "page" or "http" becomes
 * a detail.  With no entry the result is a one-element placeholder.
 */
module Education {
  import opened Wrappers
  import opened Text
  import opened Patterns
  import opened Sections
  import opened Entries
  import opened Seqs

  /** A result dictionary: an entry, or the placeholder that has only an institution. */
  datatype EduRecord =
    | EduEntry(institution: string, degree: string, dates: string, details: seq<string>, gpa: string)
    | EduPlaceholder(institution: string)

  const NotFoundInstitution := "Education information not found"

  const CourseworkPrefix := "<strong>Coursework:</strong> "

  /** Case-insensitive equality of two strings. */
  predicate EqualCI(a: string, b: string) {
    |a| == |b| && forall i :: 0 <= i < |a| ==> SameCI(a[i], b[i])
  }

  /** Group 1 of the GPA regex: one of its three keywords, in any case. */
  predicate IsGpaKeyword(w: string) {
    EqualCI(w, "cgpa") || EqualCI(w, "gpa") || EqualCI(w, "score")
  }

  /** Group 2 of the GPA regex: `[\d\.]+`. */
  predicate IsGpaNumber(n: string) {
    n != [] && forall i :: 0 <= i < |n| ==> IsDigit(n[i]) || n[i] == '.'
  }

  /** The details the pipeline can store. */
  predicate IsDetail(d: string) {
    OccursAt(d, CourseworkPrefix, 0) || KeepsDetail(d)
  }

  // ---------------------------------------------------------------- reading one line

  /** Lines 113-116: the first date range, and the line with every copy of it removed. */
  function TakeDate(line: string): (r: (Option<string>, string))
    ensures r.0.Some? <==> Found(DateRange, line)
    ensures r.0.Some? ==> r.0.value != [] && Contains(line, r.0.value)
    ensures r.0.Some? ==> r.0.value == line[Search(DateRange, line).value.0..Search(DateRange, line).value.1]
    ensures r.0.Some? ==> r.1 == Strip(RemoveAll(line, r.0.value)) && |r.1| <= |line| - |r.0.value|
    ensures r.0.None? ==> r.1 == line
  {
    match Search(DateRange, line)
    case None => (None, line)
    case Some((a, e)) =>
      var d := line[a..e];
      assert OccursAt(line, d, a);
      RemoveAllShrinks(line, d);
      (Some(d), Strip(RemoveAll(line, d)))
  }

  /** The text at `i` that `OccursCI` compares equals the word, ignoring case. */
  lemma OccursCIEqual(s: string, w: string, i: nat)
    requires OccursCI(s, w, i)
    ensures EqualCI(s[i..i + |w|], w)
  {
  }

  /** The keyword `GpaKeywordLen` measures is one of the three GPA keywords. */
  lemma GpaKeyword(s: string, i: nat)
    requires GpaKeywordLen(s, i) > 0
    ensures IsGpaKeyword(s[i..i + GpaKeywordLen(s, i)])
  {
    if OccursCI(s, "cgpa", i) {
      OccursCIEqual(s, "cgpa", i);
    } else if OccursCI(s, "gpa", i) {
      OccursCIEqual(s, "gpa", i);
    } else {
      OccursCIEqual(s, "score", i);
    }
  }

  /** Groups 1 and 2 of a GPA match from `a` to `e`. */
  function GpaGroups(line: string, a: nat, e: nat): (r: (string, string))
    requires a <= |line| && MatchAt(Gpa, line, a) == Some(e)
    ensures IsGpaKeyword(r.0) && IsGpaNumber(r.1)
    ensures a + |r.0| + |r.1| <= e && r.0 == line[a..a + |r.0|] && r.1 == line[e - |r.1|..e]
  {
    assert GpaAt(line, a) == Some(e);
    var c := GpaNumberStart(line, a);
    assert c < e == RunEnd(line, c, DigitOrDot);
    GpaKeyword(line, a);
    (line[a..a + GpaKeywordLen(line, a)], line[c..e])
  }

  /** Lines 119-122: the first GPA match as its two groups, and the line with the match removed. */
  function TakeGpa(line: string): (r: (Option<(string, string)>, string))
    ensures r.0.Some? <==> Found(Gpa, line)
    ensures r.0.Some? ==> IsGpaKeyword(r.0.value.0) && IsGpaNumber(r.0.value.1)
    ensures r.0.Some? ==> r.0.value == GpaGroups(line, Search(Gpa, line).value.0, Search(Gpa, line).value.1)
    ensures r.0.Some? ==>
      r.1 == Strip(RemoveAll(line, line[Search(Gpa, line).value.0..Search(Gpa, line).value.1])) &&
      |r.1| <= |line| - (Search(Gpa, line).value.1 - Search(Gpa, line).value.0)
    ensures r.0.None? ==> r.1 == line
  {
    match Search(Gpa, line)
    case None => (None, line)
    case Some((a, e)) =>
      assert OccursAt(line, line[a..e], a);
      RemoveAllShrinks(line, line[a..e]);
      (Some(GpaGroups(line, a, e)), Strip(RemoveAll(line, line[a..e])))
  }

  /** What a line that does not set the degree contributes (lines 130-139). */
  datatype LineUse = Coursework(courses: Option<string>) | Detail(keep: bool)

  /** Lines 131-135: a coursework line is stored only when a `:`/`,` split yields a second part. */
  function CourseworkOf(line: string): (r: Option<string>)
    ensures r.Some? <==> exists i :: 0 <= i < |line| && line[i] in {':', ','}
    ensures r.Some? ==> OccursAt(r.value, CourseworkPrefix, 0)
  {
    match AfterFirst(line, {':', ','})
    case None => None
    case Some(c) =>
      var d := CourseworkPrefix + Strip(c);
      assert d[..|CourseworkPrefix|] == CourseworkPrefix;
      Some(d)
  }

  /** Line 138: a line is kept as a detail when it is non-empty and mentions neither "page" nor "http". */
  predicate KeepsDetail(line: string) {
    line != [] && !Contains(Lower(line), "page") && !Contains(Lower(line), "http")
  }

  function UseOf(line: string): LineUse {
    if Contains(Lower(line), "coursework") then Coursework(CourseworkOf(line)) else Detail(KeepsDetail(line))
  }

  /** How the inner loop reads one line: what it records and the rest of the line. */
  datatype EduLine = EduLine(date: Option<string>, gpa: Option<(string, string)>, rest: string, degreeLine: bool, use: LineUse)

  function ReadLine(line: string): (r: EduLine)
    ensures r.gpa.Some? ==> IsGpaKeyword(r.gpa.value.0) && IsGpaNumber(r.gpa.value.1)
    ensures r.date.Some? ==> r.date.value != []
    ensures r.use == UseOf(r.rest)
    ensures r.degreeLine <==> Found(Degree, r.rest)
  {
    var (date, l1) := TakeDate(line);
    var (gpa, l2) := TakeGpa(l1);
    EduLine(date, gpa, l2, Found(Degree, l2), UseOf(l2))
  }

  function ReadLines(lines: seq<string>): (r: seq<EduLine>)
    ensures |r| == |lines| && forall j :: 0 <= j < |lines| ==> r[j] == ReadLine(lines[j])
  {
    seq(|lines|, j requires 0 <= j < |lines| => ReadLine(lines[j]))
  }

  // ---------------------------------------------------------------- the entry loop

  /**
   * One iteration of the loop at lines 111-139.  It never changes the institution,
   * keeps a degree once one is set, and stores no detail on the line that sets it.
   */
  function Step(st: EduRecord, l: EduLine): (r: EduRecord)
    ensures r.EduEntry? == st.EduEntry? && r.institution == st.institution
    ensures st.EduEntry? && st.degree != [] ==> r.degree == st.degree
    ensures st.EduEntry? && r.degree != st.degree ==> r.details == st.details
  {
    Apply(Record(st, l), l)
  }

  /** Lines 113-122: the date and the GPA of the line are recorded (a later one overwrites). */
  function Record(st: EduRecord, l: EduLine): (r: EduRecord)
    ensures r.EduEntry? == st.EduEntry?
  {
    if !st.EduEntry? then st
    else
      var st1 := if l.date.Some? then st.(dates := l.date.value) else st;
      if l.gpa.Some? then st1.(gpa := l.gpa.value.0 + ": " + l.gpa.value.1) else st1
  }

  /** Lines 125-139: what is left of the line becomes the degree or a detail, or is dropped. */
  function Apply(st: EduRecord, l: EduLine): EduRecord {
    if !st.EduEntry? then st
    else if l.degreeLine && st.degree == [] then st.(degree := Strip(l.rest))
    else match l.use
      case Coursework(c) => if c.Some? then st.(details := st.details + [c.value]) else st
      case Detail(keep) => if keep then st.(details := st.details + [l.rest]) else st
  }

  function Run(st: EduRecord, ls: seq<EduLine>): (r: EduRecord)
    ensures r.EduEntry? == st.EduEntry? && r.institution == st.institution
    decreases |ls|
  {
    if ls == [] then st else Step(Run(st, ls[..|ls| - 1]), ls[|ls| - 1])
  }

  lemma RunSnoc(st: EduRecord, ls: seq<EduLine>, i: nat)
    requires i < |ls|
    ensures Run(st, ls[..i + 1]) == Step(Run(st, ls[..i]), ls[i])
  {
    assert ls[..i + 1][..i] == ls[..i];
  }

  /** The record that starts an entry with head line `head` (lines 103-109). */
  function Head(head: string): EduRecord {
    EduEntry(head, "", "", [], "")
  }

  /** The record one entry yields (lines 99-141), `None` when it has no non-blank line. */
  function EntryOf(entry: string): (r: Option<EduRecord>)
    ensures r.Some? <==> EntryLines(entry) != []
    ensures r.Some? ==> r.value.EduEntry? && r.value.institution == EntryLines(entry)[0]
    ensures r.Some? ==> r.value.institution != [] && IsStripped(r.value.institution)
  {
    var lines := EntryLines(entry);
    if lines == [] then None else Some(Run(Head(lines[0]), ReadLines(lines[1..])))
  }

  /** What `extract_education(text)` returns: never empty, the placeholder only on its own. */
  function EducationOf(text: string): (r: seq<EduRecord>)
    ensures |r| >= 1
    ensures r == [EduPlaceholder(NotFoundInstitution)] || forall k :: 0 <= k < |r| ==> r[k].EduEntry?
  {
    var es := match SectionBody(text, EducationRegex)
      case None => []
      case Some(body) => FilterMap(EntryOf, SplitEntries(body));
    FilterMapMembers(EntryOf, match SectionBody(text, EducationRegex) case None => [] case Some(body) => SplitEntries(body));
    assert forall k :: 0 <= k < |es| ==> es[k] in es;
    if es == [] then [EduPlaceholder(NotFoundInstitution)] else es
  }

  /**
   * An entry gives a record exactly when one of its lines is not blank, and the
   * institution is the first such line, stripped (line 104).
   */
  lemma EntryInstitution(entry: string)
    ensures EntryOf(entry).None? <==> forall k :: 0 <= k < |Lines(entry)| ==> Strip(Lines(entry)[k]) == []
    ensures EntryOf(entry).Some? ==>
      exists k: nat :: FirstNonBlankAt(Lines(entry), k) && EntryOf(entry).value.institution == Strip(Lines(entry)[k])
  {
    EntryLinesFirst(entry);
  }

  /** The entries give no record exactly when none of them keeps a line; a record is a real entry. */
  lemma NoRecords(es: seq<string>)
    ensures FilterMap(EntryOf, es) == [] <==> forall e :: e in es ==> EntryLines(e) == []
    ensures FilterMap(EntryOf, es) != [] ==> FilterMap(EntryOf, es)[0].EduEntry?
  {
    FilterMapEmpty(EntryOf, es);
    FilterMapMembers(EntryOf, es);
    var r := FilterMap(EntryOf, es);
    if r != [] {
      assert r[0] in r;
    }
    forall e | e in es && forall k :: 0 <= k < |es| ==> EntryOf(es[k]).None?
      ensures EntryLines(e) == []
    {
      var k :| 0 <= k < |es| && es[k] == e;
    }
  }

  /** The placeholder is returned exactly when there is no section or no entry keeps a line (line 143). */
  lemma EducationPlaceholder(text: string)
    ensures EducationOf(text) == [EduPlaceholder(NotFoundInstitution)] <==>
      (SectionBody(text, EducationRegex).None? ||
       forall e :: e in SplitEntries(SectionBody(text, EducationRegex).value) ==> EntryLines(e) == [])
  {
    var body := SectionBody(text, EducationRegex);
    if body.Some? {
      NoRecords(SplitEntries(body.value));
    }
  }

  // ---------------------------------------------------------------- the methods

  /** Lines 113-122: the date and the GPA are recorded and removed from the line. */
  method RecordLine(entry: EduRecord, line: string) returns (entry': EduRecord, rest: string)
    requires entry.EduEntry?
    ensures entry' == Record(entry, ReadLine(line)) && rest == ReadLine(line).rest
  {
    entry' := entry;
    var (date, l1) := TakeDate(line);
    if date.Some? {
      entry' := entry'.(dates := date.value);
    }
    var (gpa, l) := TakeGpa(l1);
    if gpa.Some? {
      entry' := entry'.(gpa := gpa.value.0 + ": " + gpa.value.1);
    }
    rest := l;
    ghost var rl := ReadLine(line);
    assert rl == EduLine(date, gpa, l, Found(Degree, l), UseOf(l));
  }

  /** Lines 125-139: what is left of the line becomes the degree or a detail, or is dropped. */
  method ApplyLine(entry: EduRecord, ghost rl: EduLine, l: string) returns (entry': EduRecord)
    requires entry.EduEntry? && rl.rest == l && rl.use == UseOf(l) && (rl.degreeLine <==> Found(Degree, l))
    ensures entry' == Apply(entry, rl)
  {
    entry' := entry;
    if Found(Degree, l) && entry'.degree == [] {
      entry' := entry'.(degree := Strip(l));
      return;
    }
    if Contains(Lower(l), "coursework") {
      var courses := CourseworkOf(l);
      if courses.Some? {
        entry' := entry'.(details := entry'.details + [courses.value]);
      }
      return;
    }
    if KeepsDetail(l) {
      entry' := entry'.(details := entry'.details + [l]);
    }
  }

  /** The body of the loop at lines 112-139, with `line` rebound after each removal. */
  method ProcessLine(entry: EduRecord, line: string) returns (entry': EduRecord)
    requires entry.EduEntry?
    ensures entry' == Step(entry, ReadLine(line))
  {
    ghost var rl := ReadLine(line);
    var rec, l := RecordLine(entry, line);
    entry' := ApplyLine(rec, rl, l);
  }

  /** The loop at lines 111-139 over the lines after the head. */
  method ReadLinesInto(head: EduRecord, rest: seq<string>) returns (rec: EduRecord)
    requires head.EduEntry?
    ensures rec == Run(head, ReadLines(rest))
  {
    rec := head;
    ghost var ls := ReadLines(rest);
    assert ls[..0] == [];
    var i := 0;
    while i < |rest|
      invariant 0 <= i <= |rest|
      invariant rec == Run(head, ls[..i])
    {
      RunSnoc(head, ls, i);
      assert ls[i] == ReadLine(rest[i]);
      rec := ProcessLine(rec, rest[i]);
      i := i + 1;
    }
    TakeAll(ls);
  }

  /** Lines 99-141 for one entry: the head line, then the loop over the others. */
  method ReadEntry(entry: string) returns (r: Option<EduRecord>)
    ensures r == EntryOf(entry)
  {
    var lines := EntryLines(entry);
    if lines == [] {
      return None;
    }
    var rec := ReadLinesInto(Head(lines[0]), lines[1..]);
    r := Some(rec);
  }

  /** One iteration of the loop at lines 98-141: the record of the next entry, if it has one. */
  method AddEntry(education: seq<EduRecord>, entries: seq<string>, i: nat) returns (education': seq<EduRecord>)
    requires i < |entries| && education == FilterMap(EntryOf, entries[..i])
    ensures education' == FilterMap(EntryOf, entries[..i + 1])
  {
    var rec := ReadEntry(entries[i]);
    FilterMapStep(EntryOf, entries, i, education, rec);
    education' := education;
    if rec.Some? {
      education' := education' + [rec.value];
    }
  }

  /** The loop at lines 98-141 over the entries of the section. */
  method ReadEntries(entries: seq<string>) returns (education: seq<EduRecord>)
    ensures education == FilterMap(EntryOf, entries)
  {
    education := [];
    var i := 0;
    while i < |entries|
      invariant 0 <= i <= |entries|
      invariant education == FilterMap(EntryOf, entries[..i])
    {
      education := AddEntry(education, entries, i);
      i := i + 1;
    }
    TakeAll(entries);
  }

  method ExtractEducation(text: string) returns (education: seq<EduRecord>)
    ensures education == EducationOf(text)
  {
    education := [];
    var body := FindSectionBody(text, EducationRegex);
    if body.Some? {
      education := ReadEntries(SplitEntries(body.value));
    }
    if education == [] {
      education := [EduPlaceholder(NotFoundInstitution)];
    }
  }

  // ---------------------------------------------------------------- properties

  /** Readings as `ReadLine` produces them: the use of a line is the use of its rest. */
  predicate UsesRead(ls: seq<EduLine>) {
    forall j :: 0 <= j < |ls| ==> ls[j].use == UseOf(ls[j].rest)
  }

  /** Readings as `ReadLine` produces them: a degree line is not blank. */
  predicate DegreesRead(ls: seq<EduLine>) {
    forall j :: 0 <= j < |ls| && ls[j].degreeLine ==> Strip(ls[j].rest) != []
  }

  /** A line the degree regex matches is not blank. */
  lemma DegreeLineNotBlank(s: string)
    requires Found(Degree, s)
    ensures Strip(s) != []
  {
    var (a, e) := Search(Degree, s).value;
    assert DegreeAt(s, a).Some?;
    StripEmpty(s);
  }

  lemma ReadLinesAreReadings(lines: seq<string>)
    ensures UsesRead(ReadLines(lines)) && DegreesRead(ReadLines(lines))
  {
    var ls := ReadLines(lines);
    forall j | 0 <= j < |ls| && ls[j].degreeLine ensures Strip(ls[j].rest) != [] {
      DegreeLineNotBlank(ls[j].rest);
    }
  }

  /** After a date line, `dates` holds the date of the last line that had one. */
  lemma {:induction false} DatesLastWins(st: EduRecord, ls: seq<EduLine>, k: nat)
    requires st.EduEntry? && k < |ls| && ls[k].date.Some?
    requires forall j :: k < j < |ls| ==> ls[j].date.None?
    ensures Run(st, ls).dates == ls[k].date.value
    decreases |ls|
  {
    if k < |ls| - 1 {
      var init := ls[..|ls| - 1];
      assert forall j :: k < j < |init| ==> init[j] == ls[j];
      DatesLastWins(st, init, k);
    }
  }

  /** Without a date line, `dates` keeps its value. */
  lemma {:induction false} NoDateKeepsDates(st: EduRecord, ls: seq<EduLine>)
    requires st.EduEntry? && forall j :: 0 <= j < |ls| ==> ls[j].date.None?
    ensures Run(st, ls).dates == st.dates
    decreases |ls|
  {
    if ls != [] {
      var init := ls[..|ls| - 1];
      assert forall j :: 0 <= j < |init| ==> init[j] == ls[j];
      NoDateKeepsDates(st, init);
    }
  }

  /** After a GPA line, `gpa` is `"<keyword>: <number>"` from the last line that had one. */
  lemma {:induction false} GpaLastWins(st: EduRecord, ls: seq<EduLine>, k: nat)
    requires st.EduEntry? && k < |ls| && ls[k].gpa.Some?
    requires forall j :: k < j < |ls| ==> ls[j].gpa.None?
    ensures Run(st, ls).gpa == ls[k].gpa.value.0 + ": " + ls[k].gpa.value.1
    decreases |ls|
  {
    if k < |ls| - 1 {
      var init := ls[..|ls| - 1];
      assert forall j :: k < j < |init| ==> init[j] == ls[j];
      GpaLastWins(st, init, k);
    }
  }

  /** Without a GPA line, `gpa` keeps its value. */
  lemma {:induction false} NoGpaKeepsGpa(st: EduRecord, ls: seq<EduLine>)
    requires st.EduEntry? && forall j :: 0 <= j < |ls| ==> ls[j].gpa.None?
    ensures Run(st, ls).gpa == st.gpa
    decreases |ls|
  {
    if ls != [] {
      var init := ls[..|ls| - 1];
      assert forall j :: 0 <= j < |init| ==> init[j] == ls[j];
      NoGpaKeepsGpa(st, init);
    }
  }

  /** Without a degree line, `degree` keeps its value. */
  lemma {:induction false} NoDegreeKeepsDegree(st: EduRecord, ls: seq<EduLine>)
    requires st.EduEntry? && forall j :: 0 <= j < |ls| ==> !ls[j].degreeLine
    ensures Run(st, ls).degree == st.degree
    decreases |ls|
  {
    if ls != [] {
      var init := ls[..|ls| - 1];
      assert forall j :: 0 <= j < |init| ==> init[j] == ls[j];
      NoDegreeKeepsDegree(st, init);
    }
  }

  /** The first degree line of an entry gives its degree; later degree lines do not change it. */
  lemma {:induction false} DegreeFirstWins(st: EduRecord, ls: seq<EduLine>, k: nat)
    requires st.EduEntry? && st.degree == [] && DegreesRead(ls)
    requires k < |ls| && ls[k].degreeLine
    requires forall j :: 0 <= j < k ==> !ls[j].degreeLine
    ensures Run(st, ls).degree == Strip(ls[k].rest)
    decreases |ls|
  {
    var init := ls[..|ls| - 1];
    assert forall j :: 0 <= j < |init| ==> init[j] == ls[j];
    if k == |ls| - 1 {
      NoDegreeKeepsDegree(st, init);
    } else {
      DegreeFirstWins(st, init, k);
    }
  }

  predicate DetailsWellFormed(rec: EduRecord) {
    rec.EduEntry? ==> forall d :: d in rec.details ==> IsDetail(d)
  }

  /** One line adds at most one detail, and only a well-formed one. */
  lemma StepKeepsDetailsWellFormed(st: EduRecord, l: EduLine)
    requires DetailsWellFormed(st) && l.use == UseOf(l.rest)
    ensures DetailsWellFormed(Step(st, l))
  {
    var st1 := Record(st, l);
    assert st1.EduEntry? ==> st1.details == st.details;
    var r := Apply(st1, l);
    if r.EduEntry? && r.details != st1.details {
      match l.use
      case Coursework(c) => assert r.details == st1.details + [c.value];
      case Detail(keep) =>
        assert KeepsDetail(l.rest);
        assert r.details == st1.details + [l.rest];
    }
  }

  /** Every stored detail is a prefixed coursework list or a line free of "page" and "http". */
  lemma {:induction false} RunKeepsDetailsWellFormed(st: EduRecord, ls: seq<EduLine>)
    requires DetailsWellFormed(st) && UsesRead(ls)
    ensures DetailsWellFormed(Run(st, ls))
    decreases |ls|
  {
    if ls != [] {
      var init := ls[..|ls| - 1];
      assert forall j :: 0 <= j < |init| ==> init[j] == ls[j];
      RunKeepsDetailsWellFormed(st, init);
      StepKeepsDetailsWellFormed(Run(st, init), ls[|ls| - 1]);
    }
  }

  /** The entries of `extract_education` have only well-formed details. */
  lemma EducationDetailsWellFormed(text: string)
    ensures forall rec :: rec in EducationOf(text) ==> DetailsWellFormed(rec)
  {
    match SectionBody(text, EducationRegex)
    case None =>
    case Some(body) =>
      var entries := SplitEntries(body);
      FilterMapMembers(EntryOf, entries);
      forall rec | rec in FilterMap(EntryOf, entries) ensures DetailsWellFormed(rec) {
        var k :| 0 <= k < |entries| && EntryOf(entries[k]) == Some(rec);
        var lines := EntryLines(entries[k]);
        ReadLinesAreReadings(lines[1..]);
        RunKeepsDetailsWellFormed(Head(lines[0]), ReadLines(lines[1..]));
      }
  }
}
