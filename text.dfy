/**
 * The Python string built-ins the extractors lean on (`strip`, `split`, `lower`,
 * `upper`, `title`, `capitalize`, `replace`, `in`, sorting order).  Strings are
 * sequences of characters.  Letters, digits and case conversion are ASCII; white
 * space is Python's `str.isspace` set, which is also what `\s` and `strip()` use.
 */
module Text {
  import opened Wrappers

  /** Python's `str.isspace()` (and the regex class `\s` on `str` patterns). */
  predicate IsSpace(c: char) {
    c == ' ' || ('\t' <= c <= '\r') || ('\U{1C}' <= c <= '\U{1F}') || c == '\U{85}' ||
    c == '\U{A0}' || c == '\U{1680}' || ('\U{2000}' <= c <= '\U{200A}') || c == '\U{2028}' ||
    c == '\U{2029}' || c == '\U{202F}' || c == '\U{205F}' || c == '\U{3000}'
  }

  predicate IsUpper(c: char) { 'A' <= c <= 'Z' }
  predicate IsLower(c: char) { 'a' <= c <= 'z' }
  predicate IsLetter(c: char) { IsUpper(c) || IsLower(c) }
  predicate IsDigit(c: char) { '0' <= c <= '9' }
  /** The regex class `\w`. */
  predicate IsWordChar(c: char) { IsLetter(c) || IsDigit(c) || c == '_' }

  function LowerChar(c: char): (d: char)
    ensures !IsUpper(d)
    ensures IsLetter(c) <==> IsLetter(d)
  {
    if IsUpper(c) then (c as int + 32) as char else c
  }

  function UpperChar(c: char): (d: char)
    ensures !IsLower(d)
    ensures IsLetter(c) <==> IsLetter(d)
  {
    if IsLower(c) then (c as int - 32) as char else c
  }

  /** `s.lower()` */
  function Lower(s: string): (r: string)
    ensures |r| == |s|
    ensures forall i :: 0 <= i < |s| ==> r[i] == LowerChar(s[i])
  {
    seq(|s|, i requires 0 <= i < |s| => LowerChar(s[i]))
  }

  /** `s.upper()` */
  function Upper(s: string): (r: string)
    ensures |r| == |s|
    ensures forall i :: 0 <= i < |s| ==> r[i] == UpperChar(s[i])
  {
    seq(|s|, i requires 0 <= i < |s| => UpperChar(s[i]))
  }

  /** Case-insensitive equality of two characters, as `re.IGNORECASE` compares them. */
  predicate SameCI(a: char, b: char) { LowerChar(a) == LowerChar(b) }

  /** `s[i:].startswith(p)` */
  predicate OccursAt(s: string, p: string, i: nat) {
    i + |p| <= |s| && s[i..i + |p|] == p
  }

  /** Python's `p in s` for strings. */
  predicate Contains(s: string, p: string) {
    exists i :: 0 <= i <= |s| && OccursAt(s, p, i)
  }

  lemma ContainsInfix(s: string, a: nat, b: nat, p: string)
    requires a <= b <= |s| && Contains(s[a..b], p)
    ensures Contains(s, p)
  {
    var i :| 0 <= i <= b - a && OccursAt(s[a..b], p, i);
    assert a + i + |p| <= |s|;
    forall k | 0 <= k < |p| ensures s[a + i + k] == p[k] {
      assert s[a..b][i..i + |p|][k] == p[k];
    }
    assert s[a + i..a + i + |p|] == p;
    assert OccursAt(s, p, a + i);
  }

  /** The first index at or after `from` where `p` occurs (`s.find(p, from)`). */
  function FindFrom(s: string, p: string, from: nat): (r: Option<nat>)
    requires from <= |s|
    ensures r.Some? ==> from <= r.value <= |s| && OccursAt(s, p, r.value)
    ensures r.Some? ==> forall j :: from <= j < r.value ==> !OccursAt(s, p, j)
    ensures r.None? ==> forall j :: from <= j <= |s| ==> !OccursAt(s, p, j)
    decreases |s| - from
  {
    if OccursAt(s, p, from) then Some(from)
    else if from == |s| then None
    else FindFrom(s, p, from + 1)
  }

  /** `s.find(p)`: the first occurrence of `p` in `s`. */
  function Find(s: string, p: string): (r: Option<nat>)
    ensures r.Some? <==> Contains(s, p)
    ensures r.Some? ==> r.value + |p| <= |s| && s[r.value..r.value + |p|] == p
    ensures r.Some? ==> forall j :: 0 <= j < r.value ==> !OccursAt(s, p, j)
  {
    FindFrom(s, p, 0)
  }

  /** The index of the first character of `s` that lies in `cs`. */
  function FindAnyChar(s: string, cs: set<char>): (r: Option<nat>)
    ensures r.Some? ==> r.value < |s| && s[r.value] in cs
    ensures r.Some? ==> forall j :: 0 <= j < r.value ==> s[j] !in cs
    ensures r.None? ==> forall j :: 0 <= j < |s| ==> s[j] !in cs
  {
    if s == [] then None
    else if s[0] in cs then Some(0)
    else match FindAnyChar(s[1..], cs)
      case None => None
      case Some(k) => Some(k + 1)
  }

  /** The first index at or after `i` that is not white space (or `|s|`). */
  function SpaceEnd(s: string, i: nat): (r: nat)
    requires i <= |s|
    ensures i <= r <= |s| && (r < |s| ==> !IsSpace(s[r]))
    ensures forall k :: i <= k < r ==> IsSpace(s[k])
    decreases |s| - i
  {
    if i < |s| && IsSpace(s[i]) then SpaceEnd(s, i + 1) else i
  }

  /** `SpaceEnd` is the one index that ends a run of white space starting at `i`. */
  lemma {:induction false} SpaceEndIs(s: string, i: nat, e: nat)
    requires i <= e <= |s| && (e < |s| ==> !IsSpace(s[e]))
    requires forall k :: i <= k < e ==> IsSpace(s[k])
    ensures SpaceEnd(s, i) == e
    decreases e - i
  {
    if i < e {
      SpaceEndIs(s, i + 1, e);
    }
  }

  /** The least index `r` in `lo..j` such that `s[r..j]` is all white space. */
  function SpaceStart(s: string, lo: nat, j: nat): (r: nat)
    requires lo <= j <= |s|
    ensures lo <= r <= j && (r > lo ==> !IsSpace(s[r - 1]))
    ensures forall k :: r <= k < j ==> IsSpace(s[k])
    decreases j
  {
    if j > lo && IsSpace(s[j - 1]) then SpaceStart(s, lo, j - 1) else j
  }

  /** `s.lstrip()` */
  function LStrip(s: string): (r: string)
    ensures |r| <= |s| && r == s[|s| - |r|..]
    ensures r == [] || !IsSpace(r[0])
    ensures forall k :: 0 <= k < |s| - |r| ==> IsSpace(s[k])
  {
    s[SpaceEnd(s, 0)..]
  }

  /** `s.rstrip(chars)` for an explicit set of characters. */
  function RStripChars(s: string, cs: set<char>): (r: string)
    ensures |r| <= |s| && r == s[..|r|]
    ensures r == [] || r[|r| - 1] !in cs
    ensures forall i :: |r| <= i < |s| ==> s[i] in cs
  {
    if s != [] && s[|s| - 1] in cs then RStripChars(s[..|s| - 1], cs) else s
  }

  /** `s.rstrip()` */
  function RStrip(s: string): (r: string)
    ensures |r| <= |s| && r == s[..|r|]
    ensures r == [] || !IsSpace(r[|r| - 1])
  {
    s[..SpaceStart(s, 0, |s|)]
  }

  /** `s.strip()`: `s` without its leading and trailing white space. */
  function Strip(s: string): (r: string)
    ensures |r| <= |s|
    ensures r == [] || (!IsSpace(r[0]) && !IsSpace(r[|r| - 1]))
    ensures forall k :: 0 <= k < SpaceEnd(s, 0) ==> IsSpace(s[k])
    ensures SpaceEnd(s, 0) + |r| <= |s| && r == s[SpaceEnd(s, 0)..SpaceEnd(s, 0) + |r|]
    ensures forall k :: SpaceEnd(s, 0) + |r| <= k < |s| ==> IsSpace(s[k])
  {
    var a := SpaceEnd(s, 0);
    s[a..SpaceStart(s, a, |s|)]
  }

  /** The stripped string is an infix of `s`, starting after the leading white space. */
  lemma StripInfix(s: string)
    ensures OccursAt(s, Strip(s), SpaceEnd(s, 0))
  {
  }

  /** `strip()` gives the empty string exactly when `s` is all white space. */
  lemma StripEmpty(s: string)
    ensures Strip(s) == [] <==> forall i :: 0 <= i < |s| ==> IsSpace(s[i])
  {
    var a := SpaceEnd(s, 0);
    var b := SpaceStart(s, a, |s|);
    if b > a {
      assert !IsSpace(s[b - 1]);
    }
  }

  /** A string `strip()` leaves unchanged. */
  predicate IsStripped(s: string) {
    s == [] || (!IsSpace(s[0]) && !IsSpace(s[|s| - 1]))
  }

  lemma StrippedIsFixpoint(s: string)
    requires IsStripped(s)
    ensures Strip(s) == s
  {
  }

  /**
   * Python's `s.split(sep)` for a single separator character, generalised to a set of
   * separator characters so that it also models `re.split(r'[,;]', s)`.
   */
  function SplitOn(s: string, seps: set<char>): (parts: seq<string>)
    ensures |parts| >= 1
    ensures forall k :: 0 <= k < |parts| ==> forall c :: c in parts[k] ==> c !in seps
    decreases |s|
  {
    match FindAnyChar(s, seps)
    case None => [s]
    case Some(i) => [s[..i]] + SplitOn(s[i + 1..], seps)
  }

  /** Every character of a piece of the split is a character of `s`. */
  lemma {:induction false} SplitOnChars(s: string, seps: set<char>)
    ensures forall k, c :: 0 <= k < |SplitOn(s, seps)| && c in SplitOn(s, seps)[k] ==> c in s
    decreases |s|
  {
    match FindAnyChar(s, seps)
    case None =>
    case Some(i) =>
      var parts := SplitOn(s, seps);
      var rest := SplitOn(s[i + 1..], seps);
      SplitOnChars(s[i + 1..], seps);
      assert parts == [s[..i]] + rest;
      forall k, c | 0 <= k < |parts| && c in parts[k] ensures c in s {
        if k == 0 {
          var j :| 0 <= j < i && s[..i][j] == c;
          assert s[j] == c;
        } else {
          var t := s[i + 1..];
          assert rest[k - 1] == parts[k] && c in t;
          var j :| 0 <= j < |t| && t[j] == c;
          assert s[i + 1 + j] == c;
        }
      }
  }

  /** `sep.join(parts)` */
  function Join(parts: seq<string>, sep: char): string
  {
    if |parts| == 0 then ""
    else if |parts| == 1 then parts[0]
    else parts[0] + [sep] + Join(parts[1..], sep)
  }

  /** Joining the pieces of `s.split(sep)` with `sep` gives back `s`. */
  lemma {:induction false} JoinSplit(s: string, sep: char)
    ensures Join(SplitOn(s, {sep}), sep) == s
    decreases |s|
  {
    match FindAnyChar(s, {sep})
    case None =>
    case Some(i) =>
      var rest := SplitOn(s[i + 1..], {sep});
      assert SplitOn(s, {sep}) == [s[..i]] + rest;
      assert ([s[..i]] + rest)[1..] == rest;
      JoinSplit(s[i + 1..], sep);
      assert s == s[..i] + [sep] + s[i + 1..];
  }

  /** `s.split("\n")` */
  function Lines(s: string): (parts: seq<string>)
    ensures |parts| >= 1
    ensures forall k :: 0 <= k < |parts| ==> '\n' !in parts[k]
  {
    SplitOn(s, {'\n'})
  }

  /** `re.split(r'[<seps>]', s, maxsplit=1)[1]` when the split yields a second part. */
  function AfterFirst(s: string, seps: set<char>): (r: Option<string>)
    ensures r.Some? <==> exists i :: 0 <= i < |s| && s[i] in seps
    ensures r.Some? ==> |r.value| < |s| && r.value == s[|s| - |r.value|..] && s[|s| - |r.value| - 1] in seps
  {
    match FindAnyChar(s, seps)
    case None => None
    case Some(i) => Some(s[i + 1..])
  }

  /** `s.replace(p, "")` for a non-empty `p`: occurrences are removed left to right. */
  function RemoveAll(s: string, p: string): (r: string)
    requires |p| > 0
    ensures |r| <= |s|
    decreases |s|
  {
    if |s| < |p| then s
    else if s[..|p|] == p then RemoveAll(s[|p|..], p)
    else [s[0]] + RemoveAll(s[1..], p)
  }

  /** `s` with `p` absent: `replace` changes nothing. */
  lemma {:induction false} RemoveAllAbsent(s: string, p: string)
    requires |p| > 0 && !Contains(s, p)
    ensures RemoveAll(s, p) == s
    decreases |s|
  {
    if |s| >= |p| {
      assert !OccursAt(s, p, 0);
      forall i | 0 <= i <= |s[1..]| ensures !OccursAt(s[1..], p, i) {
        if OccursAt(s[1..], p, i) {
          assert s[i + 1..i + 1 + |p|] == s[1..][i..i + |p|];
          assert OccursAt(s, p, i + 1);
        }
      }
      RemoveAllAbsent(s[1..], p);
      assert s == [s[0]] + s[1..];
    }
  }

  /** With `p` present, `replace` removes at least one copy of it. */
  lemma {:induction false} RemoveAllShrinks(s: string, p: string)
    requires |p| > 0 && Contains(s, p)
    ensures |RemoveAll(s, p)| <= |s| - |p|
    decreases |s|
  {
    var i :| 0 <= i <= |s| && OccursAt(s, p, i);
    if s[..|p|] != p {
      assert i > 0;
      assert s[1..][i - 1..i - 1 + |p|] == s[i..i + |p|];
      assert OccursAt(s[1..], p, i - 1);
      RemoveAllShrinks(s[1..], p);
    }
  }

  /** The characters of `s` that are not white space, in order. */
  function NonSpace(s: string): string
    decreases |s|
  {
    if s == [] then [] else (if IsSpace(s[0]) then [] else [s[0]]) + NonSpace(s[1..])
  }

  lemma {:induction false} NonSpaceAppend(a: string, b: string)
    ensures NonSpace(a + b) == NonSpace(a) + NonSpace(b)
    decreases |a|
  {
    if a == [] {
      assert a + b == b;
    } else {
      assert (a + b)[0] == a[0] && (a + b)[1..] == a[1..] + b;
      NonSpaceAppend(a[1..], b);
    }
  }

  lemma {:induction false} NonSpaceAllSpace(s: string)
    requires forall k :: 0 <= k < |s| ==> IsSpace(s[k])
    ensures NonSpace(s) == []
    decreases |s|
  {
    if s != [] {
      NonSpaceAllSpace(s[1..]);
    }
  }

  lemma {:induction false} NonSpaceNoSpace(s: string)
    requires forall k :: 0 <= k < |s| ==> !IsSpace(s[k])
    ensures NonSpace(s) == s
    decreases |s|
  {
    if s != [] {
      NonSpaceNoSpace(s[1..]);
      assert s == [s[0]] + s[1..];
    }
  }

  /** A character that is not white space is kept. */
  lemma NonSpaceHas(s: string, k: nat)
    requires k < |s| && !IsSpace(s[k])
    ensures s[k] in NonSpace(s)
  {
    assert s == s[..k] + [s[k]] + s[k + 1..];
    NonSpaceAppend(s[..k] + [s[k]], s[k + 1..]);
    NonSpaceAppend(s[..k], [s[k]]);
    assert NonSpace([s[k]]) == [s[k]] by { assert [s[k]][1..] == []; }
  }

  /** Every kept character is a character of `s`. */
  lemma {:induction false} NonSpaceFrom(s: string, x: char)
    requires x in NonSpace(s)
    ensures x in s
    decreases |s|
  {
    if s[0] != x {
      NonSpaceFrom(s[1..], x);
    }
  }

  /** `lstrip()` removes no character that is not white space. */
  lemma NonSpaceLStrip(s: string)
    ensures NonSpace(LStrip(s)) == NonSpace(s)
  {
    var e := SpaceEnd(s, 0);
    assert s == s[..e] + s[e..];
    NonSpaceAppend(s[..e], s[e..]);
    NonSpaceAllSpace(s[..e]);
  }

  /** `re.sub(r'\s+', ' ', s)`: every run of white space becomes one blank. */
  function Collapse(s: string): (r: string)
    ensures |s| > 0 <==> |r| > 0
    ensures |s| > 0 && !IsSpace(s[0]) ==> r[0] == s[0]
    ensures |s| > 0 && IsSpace(s[0]) ==> r[0] == ' '
    ensures forall i :: 0 <= i < |r| && IsSpace(r[i]) ==> r[i] == ' '
    ensures forall i :: 0 <= i < |r| - 1 ==> !(r[i] == ' ' && r[i + 1] == ' ')
    decreases |s|
  {
    if s == [] then []
    else if IsSpace(s[0]) then
      var t := Collapse(LStrip(s));
      assert t == [] || t[0] != ' ';
      [' '] + t
    else [s[0]] + Collapse(s[1..])
  }

  /** Collapsing keeps every character that is not white space, in order. */
  lemma {:induction false} CollapseKeepsText(s: string)
    ensures NonSpace(Collapse(s)) == NonSpace(s)
    decreases |s|
  {
    if s != [] {
      if IsSpace(s[0]) {
        CollapseKeepsText(LStrip(s));
        NonSpaceAppend([' '], Collapse(LStrip(s)));
        NonSpaceLStrip(s);
      } else {
        CollapseKeepsText(s[1..]);
        NonSpaceAppend([s[0]], Collapse(s[1..]));
      }
    }
  }

  /** A whole run of white space collapses to one blank. */
  lemma CollapseSpaceRun(s: string)
    requires s != [] && forall k :: 0 <= k < |s| ==> IsSpace(s[k])
    ensures Collapse(s) == " "
  {
    SpaceEndIs(s, 0, |s|);
  }

  /**
   * Collapsing works run by run: cut between a white-space character and one that is
   * not, the two halves collapse separately.
   */
  lemma {:induction false} CollapseAppend(a: string, b: string)
    requires a == [] || b == [] || !IsSpace(a[|a| - 1]) || !IsSpace(b[0])
    ensures Collapse(a + b) == Collapse(a) + Collapse(b)
    decreases |a|, 1
  {
    if a == [] {
      assert a + b == b;
    } else if !IsSpace(a[0]) {
      CollapseAppendWord(a, b);
    } else {
      CollapseAppendSpace(a, b);
    }
  }

  lemma {:induction false} CollapseAppendWord(a: string, b: string)
    requires a != [] && !IsSpace(a[0])
    requires b == [] || !IsSpace(a[|a| - 1]) || !IsSpace(b[0])
    ensures Collapse(a + b) == Collapse(a) + Collapse(b)
    decreases |a|, 0
  {
    CollapseWordThen(a, b);
    CollapseAppend(a[1..], b);
    Assoc([a[0]], Collapse(a[1..]), Collapse(b));
  }

  lemma Assoc(x: string, y: string, z: string)
    ensures x + (y + z) == (x + y) + z
  {
  }

  lemma CollapseAllSpace(a: string)
    requires a != [] && IsSpace(a[0]) && SpaceEnd(a, 0) == |a|
    ensures Collapse(a) == [' ']
  {
    CollapseSpaceHead(a);
    LStripAppendAllSpace(a, []);
  }

  lemma {:induction false} CollapseAppendSpace(a: string, b: string)
    requires a != [] && IsSpace(a[0])
    requires b == [] || !IsSpace(a[|a| - 1]) || !IsSpace(b[0])
    ensures Collapse(a + b) == Collapse(a) + Collapse(b)
    decreases |a|, 0
  {
    if SpaceEnd(a, 0) == |a| {
      CollapseAllSpaceThen(a, b);
      CollapseAllSpace(a);
    } else {
      var t := LStrip(a);
      CollapseSpaceThen(a, b);
      assert t != [] && |t| < |a| && t[|t| - 1] == a[|a| - 1];
      CollapseAppend(t, b);
      Assoc([' '], Collapse(t), Collapse(b));
    }
  }

  /** A character that is not white space, and what follows it. */
  lemma CollapseWordThen(a: string, b: string)
    requires a != [] && !IsSpace(a[0])
    ensures Collapse(a + b) == [a[0]] + Collapse(a[1..] + b)
    ensures Collapse(a) == [a[0]] + Collapse(a[1..])
  {
    assert (a + b)[0] == a[0] && (a + b)[1..] == a[1..] + b;
  }

  /** White space up to the end of `a`, then `b` opening with no white space. */
  lemma CollapseAllSpaceThen(a: string, b: string)
    requires a != [] && IsSpace(a[0]) && SpaceEnd(a, 0) == |a|
    requires b == [] || !IsSpace(b[0])
    ensures Collapse(a + b) == [' '] + Collapse(b)
  {
    assert (a + b)[0] == a[0];
    CollapseSpaceHead(a + b);
    LStripAppendAllSpace(a, b);
  }

  /** White space that ends inside `a`. */
  lemma CollapseSpaceThen(a: string, b: string)
    requires a != [] && IsSpace(a[0]) && SpaceEnd(a, 0) < |a|
    ensures Collapse(a + b) == [' '] + Collapse(LStrip(a) + b)
    ensures Collapse(a) == [' '] + Collapse(LStrip(a))
  {
    assert (a + b)[0] == a[0];
    CollapseSpaceHead(a + b);
    CollapseSpaceHead(a);
    LStripAppend(a, b);
  }

  lemma CollapseSpaceHead(s: string)
    requires s != [] && IsSpace(s[0])
    ensures Collapse(s) == [' '] + Collapse(LStrip(s))
  {
  }

  lemma LStripAppendAllSpace(a: string, b: string)
    requires SpaceEnd(a, 0) == |a| && (b == [] || !IsSpace(b[0]))
    ensures LStrip(a + b) == b && LStrip(a) == []
  {
    SpaceEndAppend(a, b, 0);
    assert (a + b)[|a|..] == b;
  }

  lemma LStripAppend(a: string, b: string)
    requires SpaceEnd(a, 0) < |a|
    ensures LStrip(a + b) == LStrip(a) + b
  {
    SpaceEndAppend(a, b, 0);
    SliceAppend(a, b, SpaceEnd(a, 0));
  }

  lemma SliceAppend(a: string, b: string, e: nat)
    requires e <= |a|
    ensures (a + b)[e..] == a[e..] + b
  {
  }

  /** The white space at the head of `a + b` ends where it ends in `a`, unless it runs into `b`. */
  lemma {:induction false} SpaceEndAppend(a: string, b: string, i: nat)
    requires i <= |a|
    requires SpaceEnd(a, i) < |a| || b == [] || !IsSpace(b[0])
    ensures SpaceEnd(a + b, i) == SpaceEnd(a, i)
    decreases |a| - i
  {
    if i == |a| {
      if b != [] {
        assert (a + b)[i] == b[0];
      }
    } else {
      assert (a + b)[i] == a[i];
      if IsSpace(a[i]) {
        SpaceEndAppend(a, b, i + 1);
      }
    }
  }

  /** A text whose only white space is single blanks collapses to itself. */
  lemma {:induction false} CollapseFixpoint(s: string)
    requires forall i :: 0 <= i < |s| && IsSpace(s[i]) ==> s[i] == ' '
    requires forall i :: 0 <= i < |s| - 1 ==> !(s[i] == ' ' && s[i + 1] == ' ')
    ensures Collapse(s) == s
    decreases |s|
  {
    if s != [] {
      if IsSpace(s[0]) {
        SpaceEndIs(s, 0, 1);
      }
      CollapseFixpoint(s[1..]);
      assert s == [s[0]] + s[1..];
    }
  }

  /** White space anywhere in `s` leaves a blank in the collapsed text. */
  lemma CollapseHasSpace(s: string, k: nat)
    requires k < |s| && IsSpace(s[k])
    ensures ' ' in Collapse(s)
  {
    var j := SpaceStart(s, 0, k + 1);
    assert s == s[..j] + s[j..];
    CollapseAppend(s[..j], s[j..]);
    assert s[j..][0] == s[j];
    assert Collapse(s)[|Collapse(s[..j])|] == ' ';
  }

  /**
   * Python's `s.title()`: a letter is upper-cased when the character before it is not
   * a letter and lower-cased when it is.
   */
  function Title(s: string): (r: string)
    ensures |r| == |s|
    ensures forall i :: 0 <= i < |s| ==>
      r[i] == if i > 0 && IsLetter(s[i - 1]) then LowerChar(s[i]) else UpperChar(s[i])
  {
    TitleAfter(s, false)
  }

  function TitleAfter(s: string, prevCased: bool): (r: string)
    ensures |r| == |s|
    ensures forall i :: 0 <= i < |s| ==>
      r[i] == if (if i == 0 then prevCased else IsLetter(s[i - 1])) then LowerChar(s[i]) else UpperChar(s[i])
  {
    if s == [] then []
    else [if prevCased then LowerChar(s[0]) else UpperChar(s[0])] + TitleAfter(s[1..], IsLetter(s[0]))
  }

  /** Python's `s.capitalize()`: the first character upper-cased, the rest lower-cased. */
  function Capitalize(s: string): (r: string)
    ensures |r| == |s|
    ensures |s| > 0 ==> r[0] == UpperChar(s[0])
    ensures forall i :: 0 < i < |s| ==> r[i] == LowerChar(s[i])
  {
    if s == [] then [] else [UpperChar(s[0])] + Lower(s[1..])
  }

  /** Python's `<` on strings: lexicographic by code point. */
  predicate LexLess(a: string, b: string)
    decreases |a|
  {
    if a == [] then b != []
    else if b == [] then false
    else a[0] < b[0] || (a[0] == b[0] && LexLess(a[1..], b[1..]))
  }

  lemma {:induction false} LexLessIrreflexive(a: string)
    ensures !LexLess(a, a)
    decreases |a|
  {
    if a != [] { LexLessIrreflexive(a[1..]); }
  }

  lemma {:induction false} LexLessTransitive(a: string, b: string, c: string)
    requires LexLess(a, b) && LexLess(b, c)
    ensures LexLess(a, c)
    decreases |a|
  {
    if a != [] && b != [] && c != [] && a[0] == b[0] == c[0] {
      LexLessTransitive(a[1..], b[1..], c[1..]);
    }
  }

  lemma {:induction false} LexLessTotal(a: string, b: string)
    requires a != b
    ensures LexLess(a, b) || LexLess(b, a)
    decreases |a|
  {
    if a != [] && b != [] && a[0] == b[0] {
      assert a == [a[0]] + a[1..] && b == [b[0]] + b[1..];
      LexLessTotal(a[1..], b[1..]);
    }
  }
}
