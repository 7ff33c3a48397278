/**
 * The two steps `extract_education` and `extract_experience` share: the section body is
 * cut into entries before every line that starts with an upper-case letter followed by
 * a lower-case one (`re.split(r'\n(?=[A-Z][a-z])', body)`, resume_parser.py:97, 158),
 * and each entry is read as its stripped, non-blank lines (resume_parser.py:99, 163).
 */
module Entries {
  import opened Text

  /** The separator `\n(?=[A-Z][a-z])` matches at `i`. */
  predicate IsEntryBreak(s: string, i: nat) {
    i + 2 < |s| && s[i] == '\n' && IsUpper(s[i + 1]) && IsLower(s[i + 2])
  }

  /** The string opens with an upper-case letter followed by a lower-case one. */
  predicate CapStart(s: string) {
    |s| >= 2 && IsUpper(s[0]) && IsLower(s[1])
  }

  /**
   * The pieces of the split of `s[start..]`, when no separator occurs in `s[start..i]`.
   * Each piece after the first opens where a separator's lookahead succeeded.
   */
  function EntriesFrom(s: string, start: nat, i: nat): (r: seq<string>)
    requires start <= i <= |s|
    requires start > 0 ==> start + 1 < |s| && IsUpper(s[start]) && IsLower(s[start + 1])
    ensures |r| >= 1
    ensures forall k :: 0 <= k < |r| && (k > 0 || start > 0) ==> CapStart(r[k])
    decreases |s| - i
  {
    if i == |s| then [s[start..]]
    else if IsEntryBreak(s, i) then
      assert start > 0 ==> i >= start + 2;
      [s[start..i]] + EntriesFrom(s, i + 1, i + 1)
    else EntriesFrom(s, start, i + 1)
  }

  /** `re.split(r'\n(?=[A-Z][a-z])', s)` */
  function SplitEntries(s: string): (r: seq<string>)
    ensures |r| >= 1
    ensures forall k :: 1 <= k < |r| ==> CapStart(r[k])
  {
    EntriesFrom(s, 0, 0)
  }

  lemma {:induction false} JoinEntriesFrom(s: string, start: nat, i: nat)
    requires start <= i <= |s|
    requires start > 0 ==> start + 1 < |s| && IsUpper(s[start]) && IsLower(s[start + 1])
    ensures Join(EntriesFrom(s, start, i), '\n') == s[start..]
    decreases |s| - i
  {
    if i == |s| {
    } else if IsEntryBreak(s, i) {
      var rest := EntriesFrom(s, i + 1, i + 1);
      JoinEntriesFrom(s, i + 1, i + 1);
      assert ([s[start..i]] + rest)[1..] == rest;
      assert s[start..] == s[start..i] + ['\n'] + s[i + 1..];
    } else {
      JoinEntriesFrom(s, start, i + 1);
    }
  }

  /** The split loses only the separators' newlines: joining the pieces with `\n` gives `s` back. */
  lemma JoinEntries(s: string)
    ensures Join(SplitEntries(s), '\n') == s
  {
    JoinEntriesFrom(s, 0, 0);
  }

  /** `[line.strip() for line in ls if line.strip()]` */
  function NonBlank(ls: seq<string>): (r: seq<string>)
    ensures |r| <= |ls|
    ensures forall k :: 0 <= k < |r| ==> r[k] != [] && IsStripped(r[k])
    decreases |ls|
  {
    if ls == [] then []
    else
      var t := Strip(ls[|ls| - 1]);
      NonBlank(ls[..|ls| - 1]) + (if t == [] then [] else [t])
  }

  /** The lines of an entry, stripped, blank ones dropped. */
  function EntryLines(entry: string): (r: seq<string>)
    ensures forall k :: 0 <= k < |r| ==> r[k] != [] && IsStripped(r[k])
  {
    NonBlank(Lines(entry))
  }

  /** What `NonBlank` keeps: exactly the non-blank stripped lines. */
  lemma {:induction false} NonBlankMembers(ls: seq<string>)
    ensures forall x :: x in NonBlank(ls) <==> x != [] && exists k :: 0 <= k < |ls| && Strip(ls[k]) == x
    decreases |ls|
  {
    if ls != [] {
      var init := ls[..|ls| - 1];
      NonBlankMembers(init);
      forall x | x != [] && (exists k :: 0 <= k < |ls| && Strip(ls[k]) == x)
        ensures x in NonBlank(ls)
      {
        var k :| 0 <= k < |ls| && Strip(ls[k]) == x;
        if k < |init| {
          assert Strip(init[k]) == x;
        }
      }
      forall x | x in NonBlank(ls) ensures exists k :: 0 <= k < |ls| && Strip(ls[k]) == x {
        if x in NonBlank(init) {
          var k :| 0 <= k < |init| && Strip(init[k]) == x;
          assert Strip(ls[k]) == x;
        }
      }
    }
  }

  /** An entry has a non-blank line exactly when it is not all white space. */
  lemma {:induction false} NonBlankEmpty(ls: seq<string>)
    ensures NonBlank(ls) == [] <==> forall k :: 0 <= k < |ls| ==> Strip(ls[k]) == []
    decreases |ls|
  {
    if ls != [] {
      var init := ls[..|ls| - 1];
      NonBlankEmpty(init);
      assert forall k :: 0 <= k < |init| ==> init[k] == ls[k];
    }
  }

  /** `k` is the first line of `ls` that does not strip to nothing. */
  predicate FirstNonBlankAt(ls: seq<string>, k: nat) {
    k < |ls| && Strip(ls[k]) != [] && forall j :: 0 <= j < k ==> Strip(ls[j]) == []
  }

  /** The first line kept is the first line that is not blank, stripped. */
  lemma {:induction false} NonBlankFirst(ls: seq<string>)
    requires NonBlank(ls) != []
    ensures exists k: nat :: FirstNonBlankAt(ls, k) && NonBlank(ls)[0] == Strip(ls[k])
    decreases |ls|
  {
    var init := ls[..|ls| - 1];
    assert forall j :: 0 <= j < |init| ==> init[j] == ls[j];
    if NonBlank(init) != [] {
      NonBlankFirst(init);
      var k: nat :| FirstNonBlankAt(init, k) && NonBlank(init)[0] == Strip(init[k]);
      assert FirstNonBlankAt(ls, k);
    } else {
      NonBlankEmpty(init);
      assert FirstNonBlankAt(ls, |ls| - 1);
    }
  }

  /**
   * An entry keeps a line exactly when one of its lines is not blank, and the first line
   * kept is the first such line, stripped.
   */
  lemma EntryLinesFirst(entry: string)
    ensures EntryLines(entry) == [] <==> forall k :: 0 <= k < |Lines(entry)| ==> Strip(Lines(entry)[k]) == []
    ensures EntryLines(entry) != [] ==>
      exists k: nat :: FirstNonBlankAt(Lines(entry), k) && EntryLines(entry)[0] == Strip(Lines(entry)[k])
  {
    NonBlankEmpty(Lines(entry));
    if EntryLines(entry) != [] {
      NonBlankFirst(Lines(entry));
    }
  }

  /** An entry that is all white space keeps no line. */
  lemma BlankEntryHasNoLines(entry: string)
    requires Strip(entry) == []
    ensures EntryLines(entry) == []
  {
    StripEmpty(entry);
    SplitOnChars(entry, {'\n'});
    forall k | 0 <= k < |Lines(entry)| ensures Strip(Lines(entry)[k]) == [] {
      var l := Lines(entry)[k];
      forall i | 0 <= i < |l| ensures IsSpace(l[i]) {
        assert l == SplitOn(entry, {'\n'})[k] && l[i] in l;
        assert l[i] in entry;
        var j :| 0 <= j < |entry| && entry[j] == l[i];
        assert IsSpace(entry[j]);
      }
      StripEmpty(l);
    }
    NonBlankEmpty(Lines(entry));
  }
}
