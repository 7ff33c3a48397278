/**
 * The three text helpers of the web front end (app.py): the upload whitelist
 * `allowed_file`, the first-lines name finder `extract_name`, and the keyword skill
 * finder `extract_skills`.
 */
module FlaskApp {
  import opened Wrappers
  import opened Text
  import opened Patterns

  // ---------------------------------------------------------------- allowed_file

  const Extensions: set<string> := {"pdf", "docx", "txt"}

  /** The index of the last `c` in `s`. */
  function LastIndexOf(s: string, c: char): (r: Option<nat>)
    ensures r.Some? ==> r.value < |s| && s[r.value] == c
    ensures r.None? ==> c !in s
    decreases |s|
  {
    if s == [] then None
    else if s[|s| - 1] == c then Some(|s| - 1)
    else LastIndexOf(s[..|s| - 1], c)
  }

  lemma {:induction false} LastIndexOfIsLast(s: string, c: char)
    ensures LastIndexOf(s, c).Some? ==> forall j :: LastIndexOf(s, c).value < j < |s| ==> s[j] != c
    decreases |s|
  {
    if s != [] && s[|s| - 1] != c {
      LastIndexOfIsLast(s[..|s| - 1], c);
    }
  }

  /** `'.' in filename and filename.rsplit('.', 1)[1].lower() in {'pdf', 'docx', 'txt'}` */
  predicate AllowedFile(filename: string) {
    match LastIndexOf(filename, '.')
    case None => false
    case Some(i) => Lower(filename[i + 1..]) in Extensions
  }

  /** A file is allowed exactly when it reads `stem.ext` with a dot-free `ext` that is a whitelisted extension in any case. */
  lemma AllowedFileMeaning(filename: string)
    ensures AllowedFile(filename) <==>
      exists n :: 0 <= n < |filename| && filename[n] == '.' && '.' !in filename[n + 1..] &&
        Lower(filename[n + 1..]) in Extensions
  {
    LastIndexOfIsLast(filename, '.');
    var r := LastIndexOf(filename, '.');
    if r.Some? {
      var i := r.value;
      SuffixChars(filename, i + 1);
      forall n | 0 <= n < |filename| && filename[n] == '.' && '.' !in filename[n + 1..] ensures n == i {
        SuffixChars(filename, n + 1);
      }
    }
  }

  /** The characters of a suffix are those of `s` from `k` on. */
  lemma SuffixChars(s: string, k: nat)
    requires k <= |s|
    ensures forall c :: c in s[k..] <==> exists j :: k <= j < |s| && s[j] == c
  {
    forall c | c in s[k..] ensures exists j :: k <= j < |s| && s[j] == c {
      var m :| 0 <= m < |s[k..]| && s[k..][m] == c;
      assert s[k + m] == c;
    }
  }

  /** Whatever the stem, a whitelisted extension after a dot is allowed, in any letter case. */
  lemma AllowedFileExtension(stem: string, ext: string)
    requires '.' !in ext && Lower(ext) in Extensions
    ensures AllowedFile(stem + "." + ext)
  {
    var f := stem + "." + ext;
    assert f[|stem|] == '.' && f[|stem| + 1..] == ext;
    AllowedFileMeaning(f);
  }

  // ---------------------------------------------------------------- extract_name

  const NameNotFound := "Name not found"

  /** `text.split('\n')[:5]` */
  function HeadLines(text: string): (r: seq<string>)
    ensures |r| == if |Lines(text)| < 5 then |Lines(text)| else 5
    ensures r == Lines(text)[..|r|]
  {
    var ls := Lines(text);
    if |ls| <= 5 then ls else ls[..5]
  }

  /** The name one line yields: the Title-Case words at the start of the stripped line. */
  function LineName(line: string): (r: Option<string>)
    ensures r.Some? <==> Found(TitleWordsStart, Strip(line))
    ensures r.Some? ==> 0 < |r.value| <= |Strip(line)| && r.value == Strip(line)[..|r.value|]
  {
    var l := Strip(line);
    match Search(TitleWordsStart, l)
    case None => None
    case Some((a, e)) => Some(l[a..e])
  }

  /** The name the loop at app.py:36-39 returns when it reads the lines `ls`. */
  function NameFromLines(ls: seq<string>): string
    decreases |ls|
  {
    if ls == [] then NameNotFound
    else match LineName(ls[0])
      case Some(n) => n
      case None => NameFromLines(ls[1..])
  }

  function AppNameOf(text: string): string {
    NameFromLines(HeadLines(text))
  }

  method ExtractName(text: string) returns (name: string)
    ensures name == AppNameOf(text)
  {
    var ls := HeadLines(text);
    var i := 0;
    while i < |ls|
      invariant 0 <= i <= |ls|
      invariant NameFromLines(ls[i..]) == AppNameOf(text)
    {
      var line := Strip(ls[i]);
      var m := Search(TitleWordsStart, line);
      if m.Some? {
        return line[m.value.0..m.value.1];
      }
      assert ls[i..][1..] == ls[i + 1..];
      i := i + 1;
    }
    return NameNotFound;
  }

  /** The first of the lines whose start matches gives the name. */
  lemma {:induction false} NameFromLinesFirst(ls: seq<string>, k: nat)
    requires k < |ls| && LineName(ls[k]).Some?
    requires forall j :: 0 <= j < k ==> LineName(ls[j]).None?
    ensures NameFromLines(ls) == LineName(ls[k]).value
    decreases k
  {
    if k > 0 {
      var rest := ls[1..];
      assert LineName(ls[0]).None?;
      assert rest[k - 1] == ls[k];
      forall j | 0 <= j < k - 1 ensures LineName(rest[j]).None? {
        assert rest[j] == ls[j + 1];
      }
      NameFromLinesFirst(rest, k - 1);
    }
  }

  /** The name comes from the first of the first five lines that opens with Title-Case words. */
  lemma AppNameFirstLine(text: string, k: nat)
    requires k < 5 && k < |Lines(text)| && LineName(Lines(text)[k]).Some?
    requires forall j :: 0 <= j < k ==> LineName(Lines(text)[j]).None?
    ensures AppNameOf(text) == LineName(Lines(text)[k]).value
  {
    var ls := HeadLines(text);
    assert forall j :: 0 <= j <= k ==> ls[j] == Lines(text)[j];
    NameFromLinesFirst(ls, k);
  }

  /** A Title-Case match opens with a capitalised word whose following space is followed by a capital. */
  lemma TitleMatchShape(l: string, e: nat) returns (c: nat)
    requires MatchAt(TitleWordsStart, l, 0) == Some(e)
    ensures 2 <= c && c + 1 < e <= |l|
    ensures (forall j :: 1 <= j < c ==> IsLower(l[j])) && IsSpace(l[c]) && IsUpper(l[c + 1])
  {
    assert MatchAt(TitleWordsStart, l, 0) == TitleWordsAt(l, 0, false);
    c := CapWordEnd(l, 0).value;
    var ends := WordEnds(l, c, false);
    assert ends != [] && e == ends[|ends| - 1];
    assert c < |l| && IsSpace(l[c]);
    var e0 := CapWordEnd(l, c + 1).value;
    assert ends == [e0] + WordEnds(l, e0, false);
  }

  /** "Name not found" is no Title-Case match: its second word is in lower case. */
  lemma MatchNotSentinel(l: string, e: nat)
    requires MatchAt(TitleWordsStart, l, 0) == Some(e)
    ensures l[..e] != NameNotFound
  {
    var c := TitleMatchShape(l, e);
    if e == |NameNotFound| {
      assert l[..e][1] == l[1] && l[..e][2] == l[2] && l[..e][3] == l[3] && l[..e][4] == l[4] && l[..e][5] == l[5];
    }
  }

  /** A line that yields a name yields something other than "Name not found". */
  lemma LineNameNotSentinel(line: string)
    ensures LineName(line).Some? ==> LineName(line).value != NameNotFound
  {
    var l := Strip(line);
    match Search(TitleWordsStart, l)
    case None =>
    case Some((a, e)) =>
      assert a == 0;
      MatchNotSentinel(l, e);
  }

  lemma {:induction false} NameFromLinesNotFound(ls: seq<string>)
    ensures NameFromLines(ls) == NameNotFound <==> forall j :: 0 <= j < |ls| ==> LineName(ls[j]).None?
    decreases |ls|
  {
    if ls != [] {
      LineNameNotSentinel(ls[0]);
      NameFromLinesNotFound(ls[1..]);
      assert forall j :: 0 < j < |ls| ==> ls[j] == ls[1..][j - 1];
    }
  }

  /** The name is "Name not found" exactly when none of the first five lines opens with Title-Case words. */
  lemma AppNameNotFound(text: string)
    ensures AppNameOf(text) == NameNotFound <==>
      forall j :: 0 <= j < 5 && j < |Lines(text)| ==> LineName(Lines(text)[j]).None?
  {
    var ls := HeadLines(text);
    NameFromLinesNotFound(ls);
    assert forall j :: 0 <= j < |ls| ==> ls[j] == Lines(text)[j];
  }

  // ---------------------------------------------------------------- extract_skills

  const Keywords: seq<string> :=
    ["python", "java", "javascript", "c++", "c#", "sql", "html",
     "css", "react", "node.js", "django", "flask", "machine learning"]

  const NoSkills := "No skills detected"

  /** A word character ends right before `i`. */
  predicate WordBefore(s: string, i: nat) {
    0 < i <= |s| && IsWordChar(s[i - 1])
  }

  /** A word character starts at `i`. */
  predicate WordAt(s: string, i: nat) {
    i < |s| && IsWordChar(s[i])
  }

  /** The regex `\b`. */
  predicate Boundary(s: string, i: nat) {
    WordBefore(s, i) != WordAt(s, i)
  }

  /** `re.search(rf'\b{re.escape(kw)}\b', text, re.IGNORECASE)`, as the code writes it. */
  predicate MatchesAsWritten(text: string, kw: string) {
    exists i :: 0 <= i <= |text| && OccursCI(text, kw, i) && Boundary(text, i) && Boundary(text, i + |kw|)
  }

  /** `kw` occurs, in any letter case, with no word character right before or right after it. */
  predicate Matches(text: string, kw: string) {
    exists i :: 0 <= i <= |text| && OccursCI(text, kw, i) && !WordBefore(text, i) && !WordAt(text, i + |kw|)
  }

  /**
   * For a keyword that ends in a character that is not a word character, the trailing
   * `\\b` holds only where a word character follows, so an occurrence at the end of
   * the text or before a space or a comma is never found.
   */
  lemma AsWrittenNeedsWordAfter(text: string, kw: string)
    requires kw != [] && !IsWordChar(kw[|kw| - 1])
    ensures MatchesAsWritten(text, kw) ==> exists i: nat :: OccursCI(text, kw, i) && WordAt(text, i + |kw|)
  {
    if MatchesAsWritten(text, kw) {
      var i :| 0 <= i <= |text| && OccursCI(text, kw, i) && Boundary(text, i) && Boundary(text, i + |kw|);
      SameCIWordChar(text[i + |kw| - 1], kw[|kw| - 1]);
    }
  }

  /** "C++" on its own is not found as written, and is found as intended. */
  lemma CppMissedAsWritten()
    ensures !MatchesAsWritten("C++", "c++")
    ensures Matches("C++", "c++")
  {
    AsWrittenNeedsWordAfter("C++", "c++");
    assert OccursCI("C++", "c++", 0);
  }

  /** A keyword set off by non-word characters, or by the ends of the text, is found. */
  lemma DelimitedKeywordMatches(pre: string, kw: string, post: string)
    requires pre == [] || !IsWordChar(pre[|pre| - 1])
    requires post == [] || !IsWordChar(post[0])
    ensures Matches(pre + kw + post, kw)
  {
    var t := pre + kw + post;
    var i := |pre|;
    forall j | 0 <= j < |kw| ensures SameCI(t[i + j], kw[j]) {
      assert t[i + j] == kw[j];
    }
    assert !WordBefore(t, i) by {
      if i > 0 { assert t[i - 1] == pre[i - 1]; }
    }
    assert !WordAt(t, i + |kw|) by {
      if i + |kw| < |t| { assert t[i + |kw|] == post[0]; }
    }
    assert OccursCI(t, kw, i);
  }

  /** Case-insensitive equality keeps a character a word character. */
  lemma SameCIWordChar(a: char, b: char)
    requires SameCI(a, b)
    ensures IsWordChar(a) <==> IsWordChar(b)
  {
  }

  /** For a keyword that starts and ends with word characters the code means what was intended. */
  lemma AsWrittenAgreesOnWordKeywords(text: string, kw: string)
    requires kw != [] && IsWordChar(kw[0]) && IsWordChar(kw[|kw| - 1])
    ensures MatchesAsWritten(text, kw) <==> Matches(text, kw)
  {
    forall i | 0 <= i <= |text| && OccursCI(text, kw, i)
      ensures (Boundary(text, i) && Boundary(text, i + |kw|)) <==> (!WordBefore(text, i) && !WordAt(text, i + |kw|))
    {
      SameCIWordChar(text[i], kw[0]);
      SameCIWordChar(text[i + |kw| - 1], kw[|kw| - 1]);
    }
  }

  /** Only `c++` and `c#` end in a character that is not a word character. */
  lemma KeywordEnds()
    ensures forall k :: 0 <= k < |Keywords| && Keywords[k] != "c++" && Keywords[k] != "c#" ==>
      Keywords[k] != [] && IsWordChar(Keywords[k][0]) && IsWordChar(Keywords[k][|Keywords[k]| - 1])
    ensures forall k :: 0 <= k < |Keywords| ==> 0 < |Keywords[k]| < |NoSkills|
  {
  }

  /** The capitalised keywords among the first `n` that the code's search finds in `text`. */
  function SkillsAmong(text: string, n: nat): set<string> {
    set k | 0 <= k < n && k < |Keywords| && MatchesAsWritten(text, Keywords[k]) :: Capitalize(Keywords[k])
  }

  lemma SkillsAmongSnoc(text: string, n: nat)
    requires n < |Keywords|
    ensures SkillsAmong(text, n + 1) ==
      SkillsAmong(text, n) + if MatchesAsWritten(text, Keywords[n]) then {Capitalize(Keywords[n])} else {}
  {
  }

  /** The set `found_skills` after the loop at app.py:45-48. */
  function FoundSkills(text: string): set<string> {
    SkillsAmong(text, |Keywords|)
  }

  /** The skills a whole-keyword match would find: the corrected reading of app.py:47. */
  function IntendedSkills(text: string): set<string> {
    set k | 0 <= k < |Keywords| && Matches(text, Keywords[k]) :: Capitalize(Keywords[k])
  }

  /** The code and the corrected match find the same skills, except possibly `C++` and `C#`. */
  lemma SkillsAgreeExceptSymbols(text: string, x: string)
    requires x != "C++" && x != "C#"
    ensures x in FoundSkills(text) <==> x in IntendedSkills(text)
  {
    KeywordEnds();
    forall k | 0 <= k < |Keywords| && Capitalize(Keywords[k]) == x
      ensures MatchesAsWritten(text, Keywords[k]) <==> Matches(text, Keywords[k])
    {
      assert Keywords[k] != "c++" && Keywords[k] != "c#";
      AsWrittenAgreesOnWordKeywords(text, Keywords[k]);
    }
  }

  /** As written, the resume text "C++" yields no `C++` skill; the corrected match finds it. */
  lemma CppSkillMissed()
    ensures "C++" !in FoundSkills("C++")
    ensures "C++" in IntendedSkills("C++")
  {
    CppMissedAsWritten();
    assert Capitalize(Keywords[3]) == "C++";
  }

  /** A keyword set off by non-word characters, or by the ends of the text, is found as intended. */
  lemma IntendedSkillsFindDelimited(pre: string, k: nat, post: string)
    requires k < |Keywords|
    requires pre == [] || !IsWordChar(pre[|pre| - 1])
    requires post == [] || !IsWordChar(post[0])
    ensures Capitalize(Keywords[k]) in IntendedSkills(pre + Keywords[k] + post)
  {
    DelimitedKeywordMatches(pre, Keywords[k], post);
  }

  /** Every element of `s`, in strictly increasing order. */
  predicate StrictlySorted(s: seq<string>) {
    forall i, j :: 0 <= i < j < |s| ==> LexLess(s[i], s[j])
  }

  /** `m` is the least element of `s`. */
  predicate IsLeast(m: string, s: set<string>) {
    m in s && forall y :: y in s && y != m ==> LexLess(m, y)
  }

  /** A non-empty set of strings has a least element. */
  lemma {:induction false} SetHasLeast(s: set<string>)
    requires s != {}
    ensures exists m :: IsLeast(m, s)
    decreases |s|
  {
    var x :| x in s;
    if s == {x} {
      assert IsLeast(x, s);
    } else {
      var rest := s - {x};
      SetHasLeast(rest);
      var m :| IsLeast(m, rest);
      if LexLess(x, m) {
        forall y | y in s && y != x ensures LexLess(x, y) {
          if y != m { LexLessTransitive(x, m, y); }
        }
        assert IsLeast(x, s);
      } else {
        LexLessTotal(x, m);
        assert IsLeast(m, s);
      }
    }
  }

  /** `sorted(found)`: repeatedly take the least element left. */
  method SortStrings(found: set<string>) returns (r: seq<string>)
    ensures StrictlySorted(r)
    ensures forall x :: x in r <==> x in found
  {
    r := [];
    var rest := found;
    while rest != {}
      invariant forall x :: x in found <==> x in rest || x in r
      invariant forall x :: x in r ==> x !in rest
      invariant StrictlySorted(r)
      invariant forall x, y :: x in r && y in rest ==> LexLess(x, y)
      decreases |rest|
    {
      SetHasLeast(rest);
      var m :| IsLeast(m, rest);
      r := r + [m];
      rest := rest - {m};
    }
  }

  /** A strictly sorted list has no duplicates. */
  lemma StrictlySortedDistinct(s: seq<string>)
    requires StrictlySorted(s)
    ensures forall i, j :: 0 <= i < j < |s| ==> s[i] != s[j]
  {
    forall i, j | 0 <= i < j < |s| ensures s[i] != s[j] {
      if s[i] == s[j] { LexLessIrreflexive(s[i]); }
    }
  }

  /** The loop at app.py:45-48. */
  method FindSkills(text: string) returns (found: set<string>)
    ensures found == FoundSkills(text)
  {
    found := {};
    var i := 0;
    while i < |Keywords|
      invariant 0 <= i <= |Keywords|
      invariant found == SkillsAmong(text, i)
    {
      SkillsAmongSnoc(text, i);
      if MatchesAsWritten(text, Keywords[i]) {
        found := found + {Capitalize(Keywords[i])};
      }
      i := i + 1;
    }
  }

  /** No skill is found exactly when no keyword matches, and the fallback text is never a skill. */
  lemma FoundSkillsEmpty(text: string)
    ensures FoundSkills(text) == {} <==> forall k :: 0 <= k < |Keywords| ==> !MatchesAsWritten(text, Keywords[k])
    ensures NoSkills !in FoundSkills(text)
  {
    var f := FoundSkills(text);
    assert forall k :: 0 <= k < |Keywords| && MatchesAsWritten(text, Keywords[k]) ==> Capitalize(Keywords[k]) in f;
    KeywordEnds();
  }

  method ExtractSkills(text: string) returns (skills: seq<string>)
    ensures skills == [NoSkills] <==> forall k :: 0 <= k < |Keywords| ==> !MatchesAsWritten(text, Keywords[k])
    ensures skills != [NoSkills] ==> StrictlySorted(skills) && forall x :: x in skills <==> x in FoundSkills(text)
  {
    var found := FindSkills(text);
    FoundSkillsEmpty(text);
    if found == {} {
      skills := [NoSkills];
    } else {
      skills := SortStrings(found);
      assert skills[0] in found;
    }
  }
}
