/**
 * `extract_experience` (resume_parser.py:145-173): the experience section is cut into
 * entries; each entry with a non-blank line becomes a project whose title is that first
 * line and whose description is the remaining lines, minus page-number lines, each with
 * one leading bullet removed.  With no project the result is a one-element placeholder.
 */
module Experience {
  import opened Wrappers
  import opened Text
  import opened Patterns
  import opened Sections
  import opened Entries
  import opened Seqs

  /** A result dictionary: a project, or the placeholder that has only a title. */
  datatype Project = Project(title: string, description: seq<string>) | Placeholder(title: string)

  const NotFoundTitle := "Work experience not found"

  const Bullets: set<char> := {'•', '→', '-'}

  /** `re.sub(r'^[•→\-]\s*', '', line)`: one leading bullet and the white space after it. */
  function Unbullet(line: string): (r: string)
    ensures |r| <= |line| && r == line[|line| - |r|..]
    ensures line == [] || line[0] !in Bullets ==> r == line
    ensures line != [] && line[0] in Bullets ==> |r| < |line| && (r == [] || !IsSpace(r[0]))
    ensures line != [] && line[0] in Bullets ==> forall k :: 1 <= k < |line| - |r| ==> IsSpace(line[k])
  {
    if line != [] && line[0] in Bullets then LStrip(line[1..]) else line
  }

  /** `re.search(r'page \d+', line.lower())` */
  predicate PageLine(line: string) {
    Found(PageNumber, Lower(line))
  }

  /** The description comprehension at lines 169-170, element by element. */
  function DescItem(line: string): (r: Option<string>)
    ensures r.Some? <==> line != [] && !PageLine(line)
  {
    if line != [] && !PageLine(line) then Some(Unbullet(line)) else None
  }

  /** The description of a project, from the lines after its title. */
  function Describe(ls: seq<string>): (r: seq<string>)
    ensures |r| <= |ls|
  {
    FilterMap(DescItem, ls)
  }

  /** The project one entry yields (lines 160-171), `None` for an entry that is skipped. */
  function ProjectOf(entry: string): (r: Option<Project>)
    ensures r.Some? <==> EntryLines(entry) != []
    ensures r.Some? ==> r.value.Project? && r.value.title == EntryLines(entry)[0]
    ensures r.Some? ==> r.value.description == Describe(EntryLines(entry)[1..])
    ensures r.Some? ==> r.value.title != [] && IsStripped(r.value.title)
  {
    if Strip(entry) == [] then
      BlankEntryHasNoLines(entry);
      None
    else
      var lines := EntryLines(entry);
      if lines == [] then None else Some(Project(lines[0], Describe(lines[1..])))
  }

  /** The `projects` list after the loop over `entries`. */
  function Projects(entries: seq<string>): (r: seq<Project>)
    ensures forall k :: 0 <= k < |r| ==> r[k].Project?
  {
    var r := FilterMap(ProjectOf, entries);
    FilterMapMembers(ProjectOf, entries);
    assert forall k :: 0 <= k < |r| ==> r[k] in r;
    r
  }

  /** What `extract_experience(text)` returns: never empty, the placeholder only on its own. */
  function ExperienceOf(text: string): (r: seq<Project>)
    ensures |r| >= 1
    ensures r == [Placeholder(NotFoundTitle)] || forall k :: 0 <= k < |r| ==> r[k].Project?
  {
    var ps := match SectionBody(text, ExperienceRegex)
      case None => []
      case Some(body) => Projects(SplitEntries(body));
    if ps == [] then [Placeholder(NotFoundTitle)] else ps
  }

  /**
   * An entry gives a project exactly when one of its lines is not blank, and the title is
   * the first such line, stripped (line 168).
   */
  lemma ProjectTitle(entry: string)
    ensures ProjectOf(entry).None? <==> forall k :: 0 <= k < |Lines(entry)| ==> Strip(Lines(entry)[k]) == []
    ensures ProjectOf(entry).Some? ==>
      exists k: nat :: FirstNonBlankAt(Lines(entry), k) && ProjectOf(entry).value.title == Strip(Lines(entry)[k])
  {
    EntryLinesFirst(entry);
  }

  /** The entries give no project exactly when none of them keeps a line. */
  lemma NoProjects(es: seq<string>)
    ensures Projects(es) == [] <==> forall e :: e in es ==> EntryLines(e) == []
  {
    FilterMapEmpty(ProjectOf, es);
    forall e | e in es && forall k :: 0 <= k < |es| ==> ProjectOf(es[k]).None?
      ensures EntryLines(e) == []
    {
      var k :| 0 <= k < |es| && es[k] == e;
    }
  }

  /** The placeholder is returned exactly when there is no section or no entry keeps a line (line 173). */
  lemma ExperiencePlaceholder(text: string)
    ensures ExperienceOf(text) == [Placeholder(NotFoundTitle)] <==>
      (SectionBody(text, ExperienceRegex).None? ||
       forall e :: e in SplitEntries(SectionBody(text, ExperienceRegex).value) ==> EntryLines(e) == [])
  {
    var body := SectionBody(text, ExperienceRegex);
    if body.Some? {
      var es := SplitEntries(body.value);
      NoProjects(es);
      if Projects(es) != [] {
        assert Projects(es)[0].Project?;
      }
    }
  }

  method ExtractExperience(text: string) returns (projects: seq<Project>)
    ensures projects == ExperienceOf(text)
  {
    projects := [];
    var body := FindSectionBody(text, ExperienceRegex);
    if body.Some? {
      var raw := SplitEntries(body.value);
      var i := 0;
      while i < |raw|
        invariant 0 <= i <= |raw|
        invariant projects == Projects(raw[..i])
      {
        FilterMapSnoc(ProjectOf, raw, i);
        var proj := raw[i];
        if Strip(proj) != [] {
          var lines := EntryLines(proj);
          if lines != [] {
            projects := projects + [Project(lines[0], Describe(lines[1..]))];
          }
        }
        i := i + 1;
      }
      TakeAll(raw);
    }
    if projects == [] {
      projects := [Placeholder(NotFoundTitle)];
    }
  }

  /** A page-number match in a suffix of `s` is a match in `s`. */
  lemma PageInSuffix(s: string, m: nat)
    requires m <= |s| && Found(PageNumber, s[m..])
    ensures Found(PageNumber, s)
  {
    var t := s[m..];
    var (a, e) := Search(PageNumber, t).value;
    assert PageNumberAt(t, a).Some?;
    assert s[m + a..m + a + 5] == t[a..a + 5];
    assert MatchAt(PageNumber, s, m + a).Some?;
    SearchFromFirst(PageNumber, s, 0);
  }

  /** Lower-casing commutes with taking a suffix. */
  lemma LowerSuffix(s: string, m: nat)
    requires m <= |s|
    ensures Lower(s[m..]) == Lower(s)[m..]
  {
  }

  /** No description item mentions a page number. */
  lemma DescriptionHasNoPageNumber(ls: seq<string>)
    ensures forall d :: d in Describe(ls) ==> !PageLine(d)
  {
    FilterMapMembers(DescItem, ls);
    forall d | d in Describe(ls) ensures !PageLine(d) {
      var k :| 0 <= k < |ls| && DescItem(ls[k]) == Some(d);
      var m := |ls[k]| - |d|;
      LowerSuffix(ls[k], m);
      if PageLine(d) {
        PageInSuffix(Lower(ls[k]), m);
      }
    }
  }

  /** Every line after the title that is not a page line is in the description, unbulleted. */
  lemma DescriptionKeepsOtherLines(ls: seq<string>)
    ensures forall k :: 0 <= k < |ls| && ls[k] != [] && !PageLine(ls[k]) ==> Unbullet(ls[k]) in Describe(ls)
  {
    FilterMapMembers(DescItem, ls);
  }

  /** Every project built from `entries` lists only page-free description items. */
  lemma ProjectsHaveNoPageNumber(entries: seq<string>)
    ensures forall p :: p in Projects(entries) ==> forall d :: d in p.description ==> !PageLine(d)
  {
    FilterMapMembers(ProjectOf, entries);
    forall p | p in Projects(entries) ensures forall d :: d in p.description ==> !PageLine(d) {
      var k :| 0 <= k < |entries| && ProjectOf(entries[k]) == Some(p);
      DescriptionHasNoPageNumber(EntryLines(entries[k])[1..]);
    }
  }

  /** No description item of `extract_experience` mentions a page number. */
  lemma ExperienceHasNoPageNumber(text: string)
    ensures forall p :: p in ExperienceOf(text) && p.Project? ==> forall d :: d in p.description ==> !PageLine(d)
  {
    match SectionBody(text, ExperienceRegex)
    case None =>
    case Some(body) => ProjectsHaveNoPageNumber(SplitEntries(body));
  }
}
