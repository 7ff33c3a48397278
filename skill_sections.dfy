/**
 * `extract_skills` of resume_parser.py (lines 218-259): a scan of the skills section
 * over a current category and an insertion-ordered dictionary from category to skill
 * list.  `"Cat - items"` and `"Cat: items"` lines replace that category's list and make
 * it current; other lines extend the current category; empty categories are dropped
 * at the end.
 *
 * Each raw line is first read as a `SkillLine` (blank, category line or plain line);
 * the scan itself is a left fold over those readings.
 */
module SkillSections {
  import opened Wrappers
  import opened Text
  import opened Sections
  import opened Seqs

  /** A Python dict from category to list: its keys in insertion order and its values. */
  datatype SkillMap = SkillMap(keys: seq<string>, lists: map<string, seq<string>>)

  ghost predicate ValidMap(m: SkillMap) {
    Distinct(m.keys) && (forall k :: k in m.keys <==> k in m.lists)
  }

  /** The five categories the dictionary is created with (lines 220-226). */
  const InitialCategories: seq<string> :=
    ["Programming Languages", "Database", "Problem Solving", "Technologies", "Other"]

  const InitialMap := SkillMap(InitialCategories, map k | k in InitialCategories :: [])

  /** `d[k] = v`: a new key goes last, an existing key keeps its place. */
  function Assign(m: SkillMap, k: string, v: seq<string>): (r: SkillMap)
    ensures k in r.lists && r.lists[k] == v
    ensures forall j :: j in m.lists && j != k ==> j in r.lists && r.lists[j] == m.lists[j]
  {
    SkillMap(if k in m.lists then m.keys else m.keys + [k], m.lists[k := v])
  }

  /** Assignment keeps the keys distinct and in step with the values. */
  lemma AssignValid(m: SkillMap, k: string, v: seq<string>)
    requires ValidMap(m)
    ensures ValidMap(Assign(m, k, v))
  {
  }

  // ---------------------------------------------------------------- one line

  /** `[x.strip() for x in parts if x.strip()]` */
  function NonEmptyStripped(parts: seq<string>): (r: seq<string>)
    ensures forall x :: x in r ==> x != [] && IsStripped(x)
  {
    if parts == [] then []
    else
      var rest := NonEmptyStripped(parts[..|parts| - 1]);
      var x := Strip(parts[|parts| - 1]);
      if x == [] then rest else rest + [x]
  }

  /** `[item.strip() for item in re.split(r'[,;]', s) if item.strip()]` */
  function SplitItems(s: string): seq<string> {
    NonEmptyStripped(SplitOn(s, {',', ';'}))
  }

  /** A stored skill: stripped, non-empty, no `,` or `;`. */
  predicate CleanSkill(x: string) {
    x != [] && IsStripped(x) && ',' !in x && ';' !in x
  }

  /** Every item is stripped, non-empty and free of the separators. */
  lemma SplitItemsClean(s: string)
    ensures forall x :: x in SplitItems(s) ==> CleanSkill(x)
  {
    var parts := SplitOn(s, {',', ';'});
    var r := NonEmptyStripped(parts);
    NonEmptyStrippedFrom(parts);
    forall x | x in r ensures ',' !in x && ';' !in x {
      var k :| 0 <= k < |parts| && OccursList(parts[k], x);
      var a :| OccursAt(parts[k], x, a);
      assert forall c :: c in x ==> c in parts[k];
    }
  }

  /** `x` occurs as an infix of `part`. */
  ghost predicate OccursList(part: string, x: string) {
    exists a :: OccursAt(part, x, a)
  }

  lemma {:induction false} NonEmptyStrippedFrom(parts: seq<string>)
    ensures forall x :: x in NonEmptyStripped(parts) ==> exists k :: 0 <= k < |parts| && OccursList(parts[k], x)
    decreases |parts|
  {
    if parts != [] {
      var init := parts[..|parts| - 1];
      NonEmptyStrippedFrom(init);
      forall x | x in NonEmptyStripped(init) ensures exists k :: 0 <= k < |parts| && OccursList(parts[k], x) {
        var k :| 0 <= k < |init| && OccursList(init[k], x);
        assert parts[k] == init[k];
      }
      StripInfix(parts[|parts| - 1]);
    }
  }

  /** How the loop reads one line. */
  datatype SkillLine =
    | Blank
    | Category(category: string, items: seq<string>)
    | Plain(items: seq<string>)

  /**
   * The reading of one raw line (lines 238-256): a stripped line holding `" - "` is
   * split at its first `" - "`, otherwise one holding `":"` at its first `":"`; the
   * part before is the category (stripped), the part after its items.
   */
  function ReadLine(raw: string): (r: SkillLine)
    ensures r.Blank? <==> Strip(raw) == []
    ensures r.Category? <==> Strip(raw) != [] && (Contains(Strip(raw), " - ") || Contains(Strip(raw), ":"))
    ensures r.Category? ==> IsStripped(r.category)
    ensures !r.Blank? ==> forall x :: x in r.items ==> CleanSkill(x)
  {
    var line := Strip(raw);
    if line == [] then Blank
    else match Find(line, " - ")
      case Some(i) =>
        SplitItemsClean(line[i + 3..]);
        Category(Strip(line[..i]), SplitItems(line[i + 3..]))
      case None =>
        match Find(line, ":")
        case Some(i) =>
          SplitItemsClean(line[i + 1..]);
          Category(Strip(line[..i]), SplitItems(line[i + 1..]))
        case None =>
          SplitItemsClean(line);
          Plain(SplitItems(line))
  }

  function ReadLines(lines: seq<string>): (r: seq<SkillLine>)
    ensures |r| == |lines| && forall j :: 0 <= j < |lines| ==> r[j] == ReadLine(lines[j])
  {
    seq(|lines|, j requires 0 <= j < |lines| => ReadLine(lines[j]))
  }

  // ---------------------------------------------------------------- the scan

  /** The loop's state: `current_category` and `skills`. */
  datatype SkillState = SkillState(current: string, skills: SkillMap)

  /** The current category always has a list. */
  predicate ValidState(st: SkillState) {
    st.current in st.skills.lists
  }

  const Initial := SkillState("Other", InitialMap)

  lemma InitialValid()
    ensures ValidState(Initial) && ValidMap(Initial.skills)
  {
    assert forall k :: k in InitialCategories <==> k in InitialMap.lists;
  }

  /** One iteration of the loop at lines 237-256. */
  function Step(st: SkillState, l: SkillLine): (r: SkillState)
    requires ValidState(st)
    ensures ValidState(r)
  {
    match l
    case Blank => st
    case Category(c, items) => SkillState(c, Assign(st.skills, c, items))
    case Plain(items) =>
      SkillState(st.current, Assign(st.skills, st.current, st.skills.lists[st.current] + items))
  }

  function Run(st: SkillState, ls: seq<SkillLine>): (r: SkillState)
    requires ValidState(st)
    ensures ValidState(r)
    decreases |ls|
  {
    if ls == [] then st else Step(Run(st, ls[..|ls| - 1]), ls[|ls| - 1])
  }

  /** Every step keeps the dictionary well formed. */
  lemma {:induction false} RunValid(st: SkillState, ls: seq<SkillLine>)
    requires ValidState(st) && ValidMap(st.skills)
    ensures ValidMap(Run(st, ls).skills)
    decreases |ls|
  {
    if ls != [] {
      var prev := Run(st, ls[..|ls| - 1]);
      RunValid(st, ls[..|ls| - 1]);
      match ls[|ls| - 1]
      case Blank =>
      case Category(c, items) => AssignValid(prev.skills, c, items);
      case Plain(items) => AssignValid(prev.skills, prev.current, prev.skills.lists[prev.current] + items);
    }
  }

  /** `{k: v for k, v in skills.items() if v}` */
  function NonEmptyCategories(m: SkillMap): (r: SkillMap)
    ensures Distinct(m.keys) ==> ValidMap(r)
    ensures forall k :: k in r.lists ==> k in m.lists && r.lists[k] == m.lists[k] && r.lists[k] != []
    ensures forall k :: k in m.keys && k in m.lists && m.lists[k] != [] ==> k in r.lists
  {
    var keys := KeepNonEmpty(m.keys, m.lists);
    SkillMap(keys, map k | k in keys :: m.lists[k])
  }

  /** The keys of `ks` whose lists are non-empty, in order. */
  function KeepNonEmpty(ks: seq<string>, lists: map<string, seq<string>>): (r: seq<string>)
    ensures Distinct(ks) ==> Distinct(r)
    ensures forall k :: k in r <==> k in ks && k in lists && lists[k] != []
  {
    if ks == [] then []
    else
      var rest := KeepNonEmpty(ks[..|ks| - 1], lists);
      var k := ks[|ks| - 1];
      assert Distinct(ks) ==> k !in ks[..|ks| - 1];
      if k in lists && lists[k] != [] then rest + [k] else rest
  }

  /** The final state of the scan of section body `body`. */
  function Scan(body: string): (r: SkillState)
    ensures ValidState(r)
  {
    InitialValid();
    Run(Initial, ReadLines(Lines(body)))
  }

  /** What `extract_skills(text)` of resume_parser.py returns. */
  function SkillsOf(text: string): SkillMap {
    match SectionBody(text, SkillsRegex)
    case None => NonEmptyCategories(InitialMap)
    case Some(body) => NonEmptyCategories(Scan(body).skills)
  }

  lemma RunSnoc(st: SkillState, ls: seq<SkillLine>, i: nat)
    requires ValidState(st) && i < |ls|
    ensures Run(st, ls[..i + 1]) == Step(Run(st, ls[..i]), ls[i])
  {
    assert ls[..i + 1][..i] == ls[..i];
  }

  /** The body of the loop at lines 238-256, for one raw line. */
  method ProcessLine(current: string, m: SkillMap, raw: string) returns (current': string, m': SkillMap)
    requires current in m.lists
    ensures SkillState(current', m') == Step(SkillState(current, m), ReadLine(raw))
  {
    current', m' := current, m;
    var line := Strip(raw);
    if line != [] {
      var dash := Find(line, " - ");
      if dash.Some? {
        current' := Strip(line[..dash.value]);
        var items := SplitItems(line[dash.value + 3..]);
        assert ReadLine(raw) == Category(current', items);
        m' := Assign(m, current', items);
      } else {
        var colon := Find(line, ":");
        if colon.Some? {
          current' := Strip(line[..colon.value]);
          var items := SplitItems(line[colon.value + 1..]);
          assert ReadLine(raw) == Category(current', items);
          m' := Assign(m, current', items);
        } else {
          var items := SplitItems(line);
          assert ReadLine(raw) == Plain(items);
          m' := Assign(m, current, m.lists[current] + items);
        }
      }
    }
  }

  /** The loop at lines 237-256 over the lines of the section body. */
  method ScanBody(body: string) returns (m: SkillMap)
    ensures m == Scan(body).skills
  {
    InitialValid();
    m := InitialMap;
    var current := "Other";
    var lines := Lines(body);
    ghost var ls := ReadLines(lines);
    assert ls[..0] == [];
    var i := 0;
    while i < |lines|
      invariant 0 <= i <= |lines|
      invariant ValidState(SkillState(current, m))
      invariant SkillState(current, m) == Run(Initial, ls[..i])
    {
      RunSnoc(Initial, ls, i);
      assert ls[i] == ReadLine(lines[i]);
      current, m := ProcessLine(current, m, lines[i]);
      i := i + 1;
    }
    TakeAll(ls);
  }

  method ExtractSkills(text: string) returns (skills: SkillMap)
    ensures skills == SkillsOf(text)
  {
    var m := InitialMap;
    var body := FindSectionBody(text, SkillsRegex);
    if body.Some? {
      m := ScanBody(body.value);
    }
    skills := NonEmptyCategories(m);
  }

  // ---------------------------------------------------------------- properties

  /** The returned mapping holds no empty list. */
  lemma NoEmptyCategory(text: string)
    ensures forall k :: k in SkillsOf(text).lists ==> SkillsOf(text).lists[k] != []
  {
  }

  /** The returned keys are distinct and are exactly the keys of the returned mapping. */
  lemma ResultWellFormed(text: string)
    ensures ValidMap(SkillsOf(text))
  {
    InitialValid();
    match SectionBody(text, SkillsRegex)
    case None =>
    case Some(body) => RunValid(Initial, ReadLines(Lines(body)));
  }

  /** Every stored skill is stripped, non-empty and free of `,` and `;`. */
  lemma {:induction false} RunItemsClean(st: SkillState, ls: seq<SkillLine>)
    requires ValidState(st)
    requires forall k, x :: k in st.skills.lists && x in st.skills.lists[k] ==> CleanSkill(x)
    requires forall j :: 0 <= j < |ls| && !ls[j].Blank? ==> forall x :: x in ls[j].items ==> CleanSkill(x)
    ensures forall k, x :: k in Run(st, ls).skills.lists && x in Run(st, ls).skills.lists[k] ==> CleanSkill(x)
    decreases |ls|
  {
    if ls != [] {
      var init := ls[..|ls| - 1];
      assert forall j :: 0 <= j < |init| ==> init[j] == ls[j];
      RunItemsClean(st, init);
    }
  }

  /** Every skill `extract_skills` returns is stripped, non-empty and free of `,` and `;`. */
  lemma SkillsClean(text: string)
    ensures forall k, x :: k in SkillsOf(text).lists && x in SkillsOf(text).lists[k] ==> CleanSkill(x)
  {
    InitialValid();
    match SectionBody(text, SkillsRegex)
    case None =>
    case Some(body) =>
      var ls := ReadLines(Lines(body));
      RunItemsClean(Initial, ls);
  }

  /** The categories named by category lines, in order. */
  function CategoriesNamed(ls: seq<SkillLine>): seq<string> {
    if ls == [] then []
    else
      var rest := CategoriesNamed(ls[..|ls| - 1]);
      match ls[|ls| - 1]
      case Category(c, _) => rest + [c]
      case _ => rest
  }

  /** `keys` followed by each of `cs` that is not yet among them, in first-seen order. */
  function AddNew(keys: seq<string>, cs: seq<string>): (r: seq<string>)
    ensures |r| >= |keys| && r[..|keys|] == keys
  {
    if cs == [] then keys
    else
      var rest := AddNew(keys, cs[..|cs| - 1]);
      if cs[|cs| - 1] in rest then rest else rest + [cs[|cs| - 1]]
  }

  /**
   * Key order: the dictionary's keys are the five initial categories followed by the new
   * categories in the order they were first named.
   */
  lemma {:induction false} KeysInFirstSeenOrder(ls: seq<SkillLine>)
    ensures Run(Initial, ls).skills.keys == AddNew(InitialCategories, CategoriesNamed(ls))
    decreases |ls|
  {
    InitialValid();
    if ls != [] {
      var init := ls[..|ls| - 1];
      KeysInFirstSeenOrder(init);
      RunValid(Initial, init);
      var prev := Run(Initial, init);
      assert forall k :: k in prev.skills.keys <==> k in prev.skills.lists;
      var named := CategoriesNamed(ls);
      match ls[|ls| - 1]
      case Category(c, _) =>
        assert named == CategoriesNamed(init) + [c];
        assert named[..|named| - 1] == CategoriesNamed(init);
      case _ =>
    }
  }

  lemma {:induction false} KeepNonEmptyAllEmpty(ks: seq<string>, lists: map<string, seq<string>>)
    requires forall k :: k in ks ==> k in lists && lists[k] == []
    ensures KeepNonEmpty(ks, lists) == []
    decreases |ks|
  {
    if ks != [] {
      KeepNonEmptyAllEmpty(ks[..|ks| - 1], lists);
    }
  }

  /** Without a skills section every initial list stays empty, so nothing is returned. */
  lemma NoSectionNoSkills(text: string)
    requires SectionBody(text, SkillsRegex).None?
    ensures SkillsOf(text).keys == [] && SkillsOf(text).lists == map[]
  {
    KeepNonEmptyAllEmpty(InitialMap.keys, InitialMap.lists);
  }

  /** The returned keys: the five initial categories first, then new ones in first-seen order. */
  lemma ResultKeyOrder(text: string, body: string)
    requires SectionBody(text, SkillsRegex) == Some(body)
    ensures SkillsOf(text).keys ==
      KeepNonEmpty(AddNew(InitialCategories, CategoriesNamed(ReadLines(Lines(body)))), Scan(body).skills.lists)
  {
    KeysInFirstSeenOrder(ReadLines(Lines(body)));
  }

  /** The items of plain lines, concatenated: what `extend` adds. */
  function PlainItems(ls: seq<SkillLine>): seq<string> {
    if ls == [] then []
    else
      var rest := PlainItems(ls[..|ls| - 1]);
      match ls[|ls| - 1]
      case Plain(items) => rest + items
      case _ => rest
  }

  /** Blank and plain lines extend the current category and change no other list. */
  lemma {:induction false} PlainLinesExtend(st: SkillState, ls: seq<SkillLine>)
    requires ValidState(st)
    requires forall j :: 0 <= j < |ls| ==> !ls[j].Category?
    ensures Run(st, ls).current == st.current
    ensures Run(st, ls).skills.lists == st.skills.lists[st.current := st.skills.lists[st.current] + PlainItems(ls)]
    decreases |ls|
  {
    var c := st.current;
    var l0 := st.skills.lists;
    if ls == [] {
      assert l0[c] + [] == l0[c];
      assert l0[c := l0[c] + []] == l0;
    } else {
      var init := ls[..|ls| - 1];
      assert forall j :: 0 <= j < |init| ==> init[j] == ls[j];
      PlainLinesExtend(st, init);
      var p := PlainItems(init);
      match ls[|ls| - 1]
      case Blank =>
      case Plain(q) =>
        assert (l0[c] + p) + q == l0[c] + (p + q);
        assert l0[c := l0[c] + p][c := l0[c] + (p + q)] == l0[c := l0[c] + (p + q)];
    }
  }

  lemma {:induction false} RunAppend(st: SkillState, a: seq<SkillLine>, b: seq<SkillLine>)
    requires ValidState(st)
    ensures Run(st, a + b) == Run(Run(st, a), b)
    decreases |b|
  {
    if b == [] {
      assert a + b == a;
    } else {
      assert (a + b)[..|a + b| - 1] == a + b[..|b| - 1];
      RunAppend(st, a, b[..|b| - 1]);
    }
  }

  /**
   * Replace, then extend: after the last category line, its category is current and its
   * list is that line's items followed by the items of every later line.
   */
  lemma ReplaceThenExtend(st: SkillState, ls: seq<SkillLine>, k: nat)
    requires ValidState(st) && k < |ls| && ls[k].Category?
    requires forall j :: k < j < |ls| ==> !ls[j].Category?
    ensures Run(st, ls).current == ls[k].category
    ensures Run(st, ls).skills.lists[ls[k].category] == ls[k].items + PlainItems(ls[k + 1..])
  {
    RunAppend(st, ls[..k + 1], ls[k + 1..]);
    assert ls[..k + 1] + ls[k + 1..] == ls;
    RunSnoc(st, ls, k);
    var rest := ls[k + 1..];
    assert forall j :: 0 <= j < |rest| ==> rest[j] == ls[k + 1 + j];
    PlainLinesExtend(Run(st, ls[..k + 1]), rest);
  }

  /** With no category line at all, everything goes to `"Other"`. */
  lemma AllPlainGoesToOther(ls: seq<SkillLine>)
    requires forall j :: 0 <= j < |ls| ==> !ls[j].Category?
    ensures Run(Initial, ls).current == "Other"
    ensures Run(Initial, ls).skills.lists["Other"] == PlainItems(ls)
  {
    InitialValid();
    PlainLinesExtend(Initial, ls);
  }
}
