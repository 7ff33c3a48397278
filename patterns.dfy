/**
 * Hand-written matchers for the regular expressions the extractors use.  Each one
 * follows what Python's backtracking engine does for that particular pattern: for
 * every pattern below the greedy choices either cannot be undone usefully (the
 * character classes that follow each other are disjoint) or the backtracking is
 * spelled out (the optional phone prefix, the title-word lookahead).
 */
module Patterns {
  import opened Wrappers
  import opened Text

  /** The regexes, in the order they appear in the source. */
  datatype Pattern =
    | CapsLine             // ^([A-Z][A-Z\s]+)\n                      (MULTILINE)
    | TitleWordsLineStart  // ^([A-Z][a-z]+(?:\s+[A-Z][a-z]+)+)       (MULTILINE)
    | TitleWordsOwnLine    // (?<=\n)([A-Z][a-z]+(?:\s+[A-Z][a-z]+)+)(?=\n)
    | Email                // [\w\.-]+@[\w\.-]+
    | Phone                // (?:\+?\d{1,3}[-.\s]?)?\(?\d{3}\)?[-.\s]?\d{3}[-.\s]?\d{4}
    | Url                  // (https?://[^\s]+)
    | DateRange            // ([A-Za-z]+\s+\d{4}\s*-\s*[A-Za-z]+\s+\d{4}|[A-Za-z]+\s+\d{4}\s*-\s*Present)
    | Gpa                  // (CGPA|GPA|Score)\s*[:•]?\s*([\d\.]+)     (IGNORECASE)
    | Degree               // (Bachelor|B\.?Tech|B\.?E|Master|M\.?Tech|Ph\.?D)   (IGNORECASE)
    | PageNumber           // page \d+
    | TitleWordsStart      // ^([A-Z][a-z]+(?:\s[A-Z][a-z]+)+)         (app.py, one line)

  /** The character classes the patterns are built from. */
  datatype CharClass =
    | Letters | LowerLetters | Digits | Spaces | CapsOrSpace | EmailChars | NonSpace
    | DigitOrDot | PhoneSep | PlusSign | OpenParen | CloseParen

  predicate In(c: char, k: CharClass) {
    match k
    case Letters => IsLetter(c)
    case LowerLetters => IsLower(c)
    case Digits => IsDigit(c)
    case Spaces => IsSpace(c)
    case CapsOrSpace => IsUpper(c) || IsSpace(c)
    case EmailChars => IsWordChar(c) || c == '.' || c == '-'
    case NonSpace => !IsSpace(c)
    case DigitOrDot => IsDigit(c) || c == '.'
    case PhoneSep => c == '-' || c == '.' || IsSpace(c)
    case PlusSign => c == '+'
    case OpenParen => c == '('
    case CloseParen => c == ')'
  }

  /** The end of the longest run of `k` characters starting at `i` (a greedy `k*`). */
  function RunEnd(s: string, i: nat, k: CharClass): (e: nat)
    requires i <= |s|
    ensures i <= e <= |s|
    ensures forall j :: i <= j < e ==> In(s[j], k)
    ensures e == |s| || !In(s[e], k)
    decreases |s| - i
  {
    if i < |s| && In(s[i], k) then RunEnd(s, i + 1, k) else i
  }

  /** The length of the longest run of `k` characters at `i`, at most `hi` (a greedy `k{0,hi}`). */
  function RunLen(s: string, i: nat, k: CharClass, hi: nat): (n: nat)
    requires i <= |s|
    ensures n <= hi && i + n <= |s|
    ensures forall j :: i <= j < i + n ==> In(s[j], k)
    decreases hi
  {
    if hi > 0 && i < |s| && In(s[i], k) then 1 + RunLen(s, i + 1, k, hi - 1) else 0
  }

  predicate LineStart(s: string, i: nat) {
    i == 0 || (i <= |s| && s[i - 1] == '\n')
  }

  /** `re.IGNORECASE` comparison of `s[i:]` with the start of lower-case literal `w`. */
  predicate OccursCI(s: string, w: string, i: nat) {
    i + |w| <= |s| && forall j :: 0 <= j < |w| ==> SameCI(s[i + j], w[j])
  }

  predicate FourDigits(s: string, i: nat) {
    i + 4 <= |s| && forall j :: i <= j < i + 4 ==> IsDigit(s[j])
  }

  // ---------------------------------------------------------------- names

  /** `[A-Z][a-z]+` at `i`: the end of the word. */
  function CapWordEnd(s: string, i: nat): (r: Option<nat>)
    ensures r.Some? ==> i + 2 <= r.value <= |s| && IsUpper(s[i])
  {
    if i + 1 < |s| && IsUpper(s[i]) && IsLower(s[i + 1]) then Some(RunEnd(s, i + 1, LowerLetters))
    else None
  }

  /**
   * The ends of `(?:\s+[A-Z][a-z]+)*` after a word ending at `c`, one per further
   * word taken (`wide` is `\s+`, otherwise a single `\s`).
   */
  function WordEnds(s: string, c: nat, wide: bool): (ends: seq<nat>)
    requires c <= |s|
    ensures forall k :: 0 <= k < |ends| ==> c < ends[k] <= |s|
    decreases |s| - c
  {
    var g := if wide then RunEnd(s, c, Spaces) else if c < |s| && IsSpace(s[c]) then c + 1 else c;
    if g == c then []
    else match CapWordEnd(s, g)
      case None => []
      case Some(e) => [e] + WordEnds(s, e, wide)
  }

  /** The last end in `ends` that is followed by a newline (the lookahead `(?=\n)`). */
  function LastBeforeNewline(s: string, ends: seq<nat>): (r: Option<nat>)
    ensures r.Some? ==> r.value in ends && r.value < |s| && s[r.value] == '\n'
  {
    if ends == [] then None
    else
      var e := ends[|ends| - 1];
      if e < |s| && s[e] == '\n' then Some(e) else LastBeforeNewline(s, ends[..|ends| - 1])
  }

  /** The largest `j` with `lo <= j < hi` and `s[j] == '\n'`. */
  function LastNewline(s: string, lo: nat, hi: nat): (r: Option<nat>)
    requires hi <= |s|
    ensures r.Some? ==> lo <= r.value < hi && s[r.value] == '\n'
    decreases hi
  {
    if hi <= lo then None
    else if s[hi - 1] == '\n' then Some(hi - 1)
    else LastNewline(s, lo, hi - 1)
  }

  // ---------------------------------------------------------------- phone

  /** `cls{lo,hi}`, greedy. */
  datatype Atom = Atom(cls: CharClass, lo: nat, hi: nat)

  /** `\+?\d{1,3}[-.\s]?` */
  const PhonePrefix: seq<Atom> := [Atom(PlusSign, 0, 1), Atom(Digits, 1, 3), Atom(PhoneSep, 0, 1)]
  /** `\(?\d{3}\)?[-.\s]?\d{3}[-.\s]?\d{4}` */
  const PhoneBody: seq<Atom> :=
    [Atom(OpenParen, 0, 1), Atom(Digits, 3, 3), Atom(CloseParen, 0, 1), Atom(PhoneSep, 0, 1),
     Atom(Digits, 3, 3), Atom(PhoneSep, 0, 1), Atom(Digits, 4, 4)]

  /** Backtracking match of a sequence of greedy atoms: the end of the first success. */
  function MatchAtoms(atoms: seq<Atom>, s: string, i: nat): (r: Option<nat>)
    requires i <= |s|
    ensures r.Some? ==> i <= r.value <= |s|
    decreases |atoms|, 1, 0
  {
    if atoms == [] then Some(i)
    else TryCounts(atoms, s, i, RunLen(s, i, atoms[0].cls, atoms[0].hi))
  }

  /** The first atom takes `k` characters, then `k - 1`, ... down to its minimum. */
  function TryCounts(atoms: seq<Atom>, s: string, i: nat, k: nat): (r: Option<nat>)
    requires atoms != [] && i + k <= |s|
    ensures r.Some? ==> i <= r.value <= |s|
    decreases |atoms|, 0, k
  {
    if k < atoms[0].lo then None
    else match MatchAtoms(atoms[1..], s, i + k)
      case Some(e) => Some(e)
      case None => if k == 0 then None else TryCounts(atoms, s, i, k - 1)
  }

  function DigitCount(s: string): (n: nat)
    ensures n <= |s|
  {
    if s == [] then 0 else (if IsDigit(s[0]) then 1 else 0) + DigitCount(s[1..])
  }

  lemma {:induction false} DigitCountAppend(a: string, b: string)
    ensures DigitCount(a + b) == DigitCount(a) + DigitCount(b)
  {
    if a == [] {
      assert a + b == b;
    } else {
      assert (a + b)[0] == a[0] && (a + b)[1..] == a[1..] + b;
      DigitCountAppend(a[1..], b);
    }
  }

  lemma {:induction false} DigitCountAllDigits(s: string)
    requires forall j :: 0 <= j < |s| ==> IsDigit(s[j])
    ensures DigitCount(s) == |s|
  {
    if s != [] { DigitCountAllDigits(s[1..]); }
  }

  /** The number of digits the atoms demand at least. */
  function DigitsDemanded(atoms: seq<Atom>): nat {
    if atoms == [] then 0 else (if atoms[0].cls == Digits then atoms[0].lo else 0) + DigitsDemanded(atoms[1..])
  }

  lemma {:induction false} MatchAtomsDigits(atoms: seq<Atom>, s: string, i: nat)
    requires i <= |s| && MatchAtoms(atoms, s, i).Some?
    ensures DigitCount(s[i..MatchAtoms(atoms, s, i).value]) >= DigitsDemanded(atoms)
    decreases |atoms|, 1, 0
  {
    if atoms != [] {
      TryCountsDigits(atoms, s, i, RunLen(s, i, atoms[0].cls, atoms[0].hi));
    }
  }

  lemma {:induction false} TryCountsDigits(atoms: seq<Atom>, s: string, i: nat, k: nat)
    requires atoms != [] && i + k <= |s| && TryCounts(atoms, s, i, k).Some?
    requires forall j :: i <= j < i + k ==> In(s[j], atoms[0].cls)
    ensures DigitCount(s[i..TryCounts(atoms, s, i, k).value]) >= DigitsDemanded(atoms)
    decreases |atoms|, 0, k
  {
    var rest := MatchAtoms(atoms[1..], s, i + k);
    if rest.Some? {
      var e := rest.value;
      MatchAtomsDigits(atoms[1..], s, i + k);
      assert s[i..e] == s[i..i + k] + s[i + k..e];
      DigitCountAppend(s[i..i + k], s[i + k..e]);
      if atoms[0].cls == Digits { DigitCountAllDigits(s[i..i + k]); }
    } else {
      TryCountsDigits(atoms, s, i, k - 1);
    }
  }

  lemma PhoneDigitsDemanded()
    ensures DigitsDemanded(PhoneBody) == 10
    ensures DigitsDemanded(PhonePrefix + PhoneBody) == 11
  {
    var b := PhoneBody;
    assert DigitsDemanded(b[6..]) == 4 by { assert b[6..][1..] == []; }
    assert DigitsDemanded(b[5..]) == 4 by { assert b[5..][1..] == b[6..]; }
    assert DigitsDemanded(b[4..]) == 7 by { assert b[4..][1..] == b[5..]; }
    assert DigitsDemanded(b[3..]) == 7 by { assert b[3..][1..] == b[4..]; }
    assert DigitsDemanded(b[2..]) == 7 by { assert b[2..][1..] == b[3..]; }
    assert DigitsDemanded(b[1..]) == 10 by { assert b[1..][1..] == b[2..]; }
    assert DigitsDemanded(b) == 10 by { assert b[1..] == b[1..]; }
    var f := PhonePrefix + PhoneBody;
    assert f[3..] == b;
    assert DigitsDemanded(f[2..]) == 10 by { assert f[2..][1..] == b; }
    assert DigitsDemanded(f[1..]) == 11 by { assert f[1..][1..] == f[2..]; }
    assert DigitsDemanded(f) == 11 by { assert f[1..] == f[1..]; }
  }

  /** Phone: the optional prefix group is tried first, then the body alone. */
  function PhoneAt(s: string, i: nat): (r: Option<nat>)
    requires i <= |s|
    ensures r.Some? ==> i <= r.value <= |s| && DigitCount(s[i..r.value]) >= 10
  {
    var full := MatchAtoms(PhonePrefix + PhoneBody, s, i);
    if full.Some? then
      PhoneDigitsDemanded();
      MatchAtomsDigits(PhonePrefix + PhoneBody, s, i);
      full
    else
      var body := MatchAtoms(PhoneBody, s, i);
      if body.Some? then
        PhoneDigitsDemanded();
        MatchAtomsDigits(PhoneBody, s, i);
        body
      else None
  }

  // ---------------------------------------------------------------- education

  /** A date range opens with a letter and ends with the four digits of a year or with `Present`. */
  function DateAt(s: string, i: nat): (r: Option<nat>)
    requires i <= |s|
    ensures r.Some? ==> i < r.value <= |s| && IsLetter(s[i])
    ensures r.Some? ==> (r.value >= 4 && FourDigits(s, r.value - 4)) || (r.value >= 7 && OccursAt(s, "Present", r.value - 7))
  {
    var a := RunEnd(s, i, Letters);
    var b := RunEnd(s, a, Spaces);
    if a == i || b == a || !FourDigits(s, b) then None
    else
      var c := RunEnd(s, b + 4, Spaces);
      if c == |s| || s[c] != '-' then None
      else
        var d := RunEnd(s, c + 1, Spaces);
        var e := RunEnd(s, d, Letters);
        var f := RunEnd(s, e, Spaces);
        if e > d && f > e && FourDigits(s, f) then Some(f + 4)
        else if OccursAt(s, "Present", d) then Some(d + 7)
        else None
  }

  /** The length of the `(CGPA|GPA|Score)` keyword at `i`, 0 when there is none. */
  function GpaKeywordLen(s: string, i: nat): (n: nat)
    ensures n in {0, 3, 4, 5}
    ensures n > 0 ==> i + n <= |s|
  {
    if OccursCI(s, "cgpa", i) then 4
    else if OccursCI(s, "gpa", i) then 3
    else if OccursCI(s, "score", i) then 5
    else 0
  }

  /** Where the number `([\d\.]+)` of a GPA match at `i` starts (after `\s*[:•]?\s*`). */
  function GpaNumberStart(s: string, i: nat): (c: nat)
    requires i + GpaKeywordLen(s, i) <= |s|
    ensures i + GpaKeywordLen(s, i) <= c <= |s|
  {
    var a := RunEnd(s, i + GpaKeywordLen(s, i), Spaces);
    var b := if a < |s| && (s[a] == ':' || s[a] == '•') then a + 1 else a;
    RunEnd(s, b, Spaces)
  }

  /** A GPA match opens with its keyword and ends with a digit or a dot. */
  function GpaAt(s: string, i: nat): (r: Option<nat>)
    requires i <= |s|
    ensures r.Some? ==> i < r.value <= |s| && GpaKeywordLen(s, i) > 0 && In(s[r.value - 1], DigitOrDot)
  {
    if GpaKeywordLen(s, i) == 0 then None
    else
      var c := GpaNumberStart(s, i);
      var d := RunEnd(s, c, DigitOrDot);
      if d > c then Some(d) else None
  }

  /** The alternatives of the degree regex, `\.?` expanded greedy-first. */
  const DegreeWords: seq<string> :=
    ["bachelor", "b.tech", "btech", "b.e", "be", "master", "m.tech", "mtech", "ph.d", "phd"]

  function FirstWordAt(s: string, i: nat, words: seq<string>): (r: Option<nat>)
    ensures r.Some? ==> exists w :: w in words && r.value == i + |w| && OccursCI(s, w, i)
  {
    if words == [] then None
    else if OccursCI(s, words[0], i) then Some(i + |words[0]|)
    else FirstWordAt(s, i, words[1..])
  }

  // ---------------------------------------------------------------- dispatch

  /** `^([A-Z][A-Z\s]+)\n` under MULTILINE: the `\s` run may swallow newlines, back to the last one. */
  function CapsLineAt(s: string, i: nat): (r: Option<nat>)
    requires i <= |s|
    ensures r.Some? ==> i < r.value <= |s|
  {
    if LineStart(s, i) && i < |s| && IsUpper(s[i]) then
      match LastNewline(s, i + 2, RunEnd(s, i + 1, CapsOrSpace))
      case None => None
      case Some(j) => Some(j + 1)
    else None
  }

  /** Capitalised words separated by white space (`wide`) or by blanks only. */
  function TitleWordsAt(s: string, i: nat, wide: bool): (r: Option<nat>)
    requires i <= |s|
    ensures r.Some? ==> i < r.value <= |s| && IsUpper(s[i])
  {
    match CapWordEnd(s, i)
    case None => None
    case Some(c) =>
      var ends := WordEnds(s, c, wide);
      if ends == [] then None else Some(ends[|ends| - 1])
  }

  /** Capitalised words that end right before a newline. */
  function TitleWordsLineAt(s: string, i: nat): (r: Option<nat>)
    requires i <= |s|
    ensures r.Some? ==> i < r.value <= |s|
  {
    match CapWordEnd(s, i)
    case None => None
    case Some(c) => LastBeforeNewline(s, WordEnds(s, c, true))
  }

  /** An e-mail match opens and ends with a character of `[\w\.-]`. */
  function EmailAt(s: string, i: nat): (r: Option<nat>)
    requires i <= |s|
    ensures r.Some? ==> i < r.value <= |s| && In(s[i], EmailChars) && In(s[r.value - 1], EmailChars)
  {
    var a := RunEnd(s, i, EmailChars);
    if a == i || a == |s| || s[a] != '@' then None
    else
      var b := RunEnd(s, a + 1, EmailChars);
      if b == a + 1 then None else Some(b)
  }

  /** A URL match opens with its scheme and ends with a character that is not white space. */
  function UrlAt(s: string, i: nat): (r: Option<nat>)
    requires i <= |s|
    ensures r.Some? ==> i < r.value <= |s| && (OccursAt(s, "http://", i) || OccursAt(s, "https://", i))
    ensures r.Some? ==> !IsSpace(s[r.value - 1])
  {
    var o := if OccursAt(s, "https://", i) then i + 8 else if OccursAt(s, "http://", i) then i + 7 else i;
    var e := RunEnd(s, o, NonSpace);
    if o == i || e == o then None else Some(e)
  }

  /** Every alternative of the degree regex starts with a letter, which is checked first. */
  function DegreeAt(s: string, i: nat): (r: Option<nat>)
    requires i <= |s|
    ensures r.Some? ==> i < r.value <= |s| && IsLetter(s[i])
  {
    if i < |s| && IsLetter(s[i]) then
      var r := FirstWordAt(s, i, DegreeWords);
      if r.Some? then
        assert forall w :: w in DegreeWords ==> |w| > 0;
        r
      else None
    else None
  }

  /** A page-number match is `page ` followed by a run of digits. */
  function PageNumberAt(s: string, i: nat): (r: Option<nat>)
    requires i <= |s|
    ensures r.Some? ==> i + 5 < r.value <= |s| && OccursAt(s, "page ", i) && IsDigit(s[r.value - 1])
  {
    if OccursAt(s, "page ", i) && i + 5 < |s| && IsDigit(s[i + 5]) then Some(RunEnd(s, i + 5, Digits))
    else None
  }

  /** Where a match of `p` that starts at `i` ends, if one does. */
  function MatchAt(p: Pattern, s: string, i: nat): (r: Option<nat>)
    requires i <= |s|
    ensures r.Some? ==> i < r.value <= |s|
  {
    match p
    case CapsLine => CapsLineAt(s, i)
    case TitleWordsLineStart => if LineStart(s, i) then TitleWordsAt(s, i, true) else None
    case TitleWordsOwnLine => if 0 < i && s[i - 1] == '\n' then TitleWordsLineAt(s, i) else None
    case TitleWordsStart => if i == 0 then TitleWordsAt(s, i, false) else None
    case Email => EmailAt(s, i)
    case Phone =>
      var r := PhoneAt(s, i);
      if r.Some? then
        assert DigitCount(s[i..r.value]) >= 10;
        r
      else None
    case Url => UrlAt(s, i)
    case DateRange => DateAt(s, i)
    case Gpa => GpaAt(s, i)
    case Degree => DegreeAt(s, i)
    case PageNumber => PageNumberAt(s, i)
  }

  /** The group the extractor reads: `CapsLine` captures without its final newline. */
  function Group(p: Pattern, s: string, i: nat, e: nat): string
    requires i < e <= |s|
  {
    if p == CapsLine then s[i..e - 1] else s[i..e]
  }

  /** The first position `j` in `from..n` where `m(j)` succeeds, with what it returned. */
  function FirstHit(m: nat -> Option<nat>, from: nat, n: nat): (r: Option<(nat, nat)>)
    requires from <= n
    ensures r.Some? ==> from <= r.value.0 <= n && m(r.value.0) == Some(r.value.1)
    decreases n - from
  {
    match m(from)
    case Some(e) => Some((from, e))
    case None => if from == n then None else FirstHit(m, from + 1, n)
  }

  /** `FirstHit` fails at every position before the one it returns, and everywhere when it returns none. */
  lemma {:induction false} FirstHitFirst(m: nat -> Option<nat>, from: nat, n: nat)
    requires from <= n
    ensures FirstHit(m, from, n).Some? ==> forall j :: from <= j < FirstHit(m, from, n).value.0 ==> m(j).None?
    ensures FirstHit(m, from, n).None? ==> forall j :: from <= j <= n ==> m(j).None?
    decreases n - from
  {
    if m(from).None? && from < n {
      FirstHitFirst(m, from + 1, n);
    }
  }

  /** A hit at `a` with none before it is what `FirstHit` returns. */
  lemma {:induction false} FirstHitIs(m: nat -> Option<nat>, from: nat, n: nat, a: nat)
    requires from <= a <= n && m(a).Some?
    requires forall j :: from <= j < a ==> m(j).None?
    ensures FirstHit(m, from, n) == Some((a, m(a).value))
    decreases a - from
  {
    if from < a {
      FirstHitIs(m, from + 1, n, a);
    }
  }

  /** `p` tried at every position of `s`. */
  function Matcher(p: Pattern, s: string): nat -> Option<nat> {
    (j: nat) => if j <= |s| then MatchAt(p, s, j) else None
  }

  /** `re.search(p, s[from:])`: the leftmost match at or after `from`, as (start, end). */
  function SearchFrom(p: Pattern, s: string, from: nat): (r: Option<(nat, nat)>)
    requires from <= |s|
    ensures r.Some? ==> from <= r.value.0 < r.value.1 <= |s| && MatchAt(p, s, r.value.0) == Some(r.value.1)
  {
    FirstHit(Matcher(p, s), from, |s|)
  }

  /** The match `SearchFrom` returns is the leftmost one, and it returns none only when `p` matches nowhere. */
  lemma SearchFromFirst(p: Pattern, s: string, from: nat)
    requires from <= |s|
    ensures SearchFrom(p, s, from).Some? ==>
      forall j :: from <= j < SearchFrom(p, s, from).value.0 ==> MatchAt(p, s, j).None?
    ensures SearchFrom(p, s, from).None? ==> forall j :: from <= j <= |s| ==> MatchAt(p, s, j).None?
  {
    FirstHitFirst(Matcher(p, s), from, |s|);
    assert forall j :: from <= j <= |s| ==> Matcher(p, s)(j) == MatchAt(p, s, j);
  }

  /** A match at `a` with nothing before it is what `SearchFrom` returns. */
  lemma SearchFromIs(p: Pattern, s: string, from: nat, a: nat)
    requires from <= a <= |s| && MatchAt(p, s, a).Some?
    requires forall j :: from <= j < a ==> MatchAt(p, s, j).None?
    ensures SearchFrom(p, s, from) == Some((a, MatchAt(p, s, a).value))
  {
    var m := Matcher(p, s);
    assert forall j :: from <= j <= a ==> m(j) == MatchAt(p, s, j);
    FirstHitIs(m, from, |s|, a);
  }

  function Search(p: Pattern, s: string): (r: Option<(nat, nat)>)
    ensures r.Some? ==> r.value.0 < r.value.1 <= |s| && MatchAt(p, s, r.value.0) == Some(r.value.1)
  {
    SearchFrom(p, s, 0)
  }

  /** `re.search(p, s)` used as a truth value. */
  predicate Found(p: Pattern, s: string) {
    Search(p, s).Some?
  }

  /** `re.findall(p, s[from:])` for a pattern without groups: non-overlapping, left to right. */
  function FindAllFrom(p: Pattern, s: string, from: nat): (r: seq<string>)
    requires from <= |s|
    decreases |s| - from
  {
    match SearchFrom(p, s, from)
    case None => []
    case Some((a, e)) => [s[a..e]] + FindAllFrom(p, s, e)
  }

  function FindAll(p: Pattern, s: string): seq<string> {
    FindAllFrom(p, s, 0)
  }

  /** `x` is the text of some match of `p` in `s`. */
  ghost predicate IsMatchText(p: Pattern, s: string, x: string) {
    exists a: nat, e: nat :: a < e <= |s| && MatchAt(p, s, a) == Some(e) && x == s[a..e]
  }

  /** Every string `re.findall` returns is the text of a match. */
  lemma {:induction false} FindAllFromMatches(p: Pattern, s: string, from: nat)
    requires from <= |s|
    ensures forall x :: x in FindAllFrom(p, s, from) ==> IsMatchText(p, s, x)
    decreases |s| - from
  {
    match SearchFrom(p, s, from)
    case None =>
    case Some((a, e)) =>
      FindAllFromMatches(p, s, e);
      assert IsMatchText(p, s, s[a..e]);
  }
}
