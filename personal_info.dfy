/**
 * `extract_personal_info` (resume_parser.py:40-83): a record of six fields that all start
 * as "Not found" (the e-mail list as empty).  The name is the title-cased group of the
 * first of three name patterns that matches; the e-mails are the distinct matches of the
 * e-mail pattern; the phone is the first phone match; and each URL found, with trailing
 * `.`, `,` and `)` removed, is filed as LinkedIn, GitHub or portfolio link by what it
 * contains, a later URL of the same kind replacing an earlier one.
 */
module PersonalInfo {
  import opened Wrappers
  import opened Text
  import opened Patterns
  import opened Seqs

  const NotFound := "Not found"

  datatype Info = Info(
    name: string, email: seq<string>, phone: string,
    linkedin: string, github: string, portfolio: string)

  // ---------------------------------------------------------------- name

  /** The name patterns, in the order they are tried (lines 52-56). */
  const NamePatterns: seq<Pattern> := [CapsLine, TitleWordsLineStart, TitleWordsOwnLine]

  /** `match.group(1).title()` for the first match of `p`, if there is one. */
  function NameMatch(p: Pattern, text: string): (r: Option<string>)
    ensures r.Some? <==> Found(p, text)
  {
    match Search(p, text)
    case None => None
    case Some((a, e)) => Some(Title(Group(p, text, a, e)))
  }

  /** The name the loop at lines 58-62 settles on when it tries the patterns `ps`. */
  function NameFrom(text: string, ps: seq<Pattern>): string
    decreases |ps|
  {
    if ps == [] then NotFound
    else match NameMatch(ps[0], text)
      case Some(n) => n
      case None => NameFrom(text, ps[1..])
  }

  function NameOf(text: string): string {
    NameFrom(text, NamePatterns)
  }

  method ExtractName(text: string) returns (name: string)
    ensures name == NameOf(text)
  {
    name := NotFound;
    var i := 0;
    while i < |NamePatterns|
      invariant 0 <= i <= |NamePatterns|
      invariant NameFrom(text, NamePatterns[i..]) == NameOf(text)
      invariant name == NotFound
    {
      var p := NamePatterns[i];
      var m := Search(p, text);
      if m.Some? {
        name := Title(Group(p, text, m.value.0, m.value.1));
        return;
      }
      assert NamePatterns[i..][1..] == NamePatterns[i + 1..];
      i := i + 1;
    }
  }

  /** The first pattern of `ps` that matches decides the name. */
  lemma {:induction false} NameFromFirst(text: string, ps: seq<Pattern>, k: nat)
    requires k < |ps| && Found(ps[k], text)
    requires forall j :: 0 <= j < k ==> !Found(ps[j], text)
    ensures NameFrom(text, ps) == NameMatch(ps[k], text).value
    decreases k
  {
    if k > 0 {
      var rest := ps[1..];
      assert !Found(ps[0], text);
      assert rest[k - 1] == ps[k];
      forall j | 0 <= j < k - 1 ensures !Found(rest[j], text) {
        assert rest[j] == ps[j + 1];
      }
      NameFromFirst(text, rest, k - 1);
    }
  }

  /** No title-cased string reads "Not found": its fifth letter would be upper case. */
  lemma TitleNeverNotFound(s: string)
    ensures Title(s) != NotFound
  {
    if |s| == |NotFound| {
      var t := Title(s);
      var c := s[3];
      assert t[3] == if IsLetter(s[2]) then LowerChar(c) else UpperChar(c);
      if IsLetter(c) {
        assert IsLetter(LowerChar(c)) && IsLetter(UpperChar(c));
      } else {
        assert t[4] == UpperChar(s[4]);
      }
      assert t[3] != NotFound[3] || t[4] != NotFound[4];
    }
  }

  /** With no pattern of `ps` matching, the name stays "Not found", and only then. */
  lemma {:induction false} NameFromNotFound(text: string, ps: seq<Pattern>)
    ensures NameFrom(text, ps) == NotFound <==> forall j :: 0 <= j < |ps| ==> !Found(ps[j], text)
    decreases |ps|
  {
    if ps != [] {
      NameFromNotFound(text, ps[1..]);
      assert forall j :: 0 < j < |ps| ==> ps[j] == ps[1..][j - 1];
      match Search(ps[0], text)
      case None =>
      case Some((a, e)) => TitleNeverNotFound(Group(ps[0], text, a, e));
    }
  }

  /** The name is "Not found" exactly when none of the three patterns matches. */
  lemma NameNotFound(text: string)
    ensures NameOf(text) == NotFound <==> forall j :: 0 <= j < |NamePatterns| ==> !Found(NamePatterns[j], text)
  {
    NameFromNotFound(text, NamePatterns);
  }

  /** Every name pattern's group is non-empty and opens with an upper-case letter. */
  lemma NameGroupStartsUpper(p: Pattern, text: string, a: nat, e: nat)
    requires p in NamePatterns && a <= |text| && MatchAt(p, text, a) == Some(e)
    ensures a < e && Group(p, text, a, e) != [] && IsUpper(Group(p, text, a, e)[0])
  {
    if p == CapsLine {
      assert MatchAt(p, text, a) == CapsLineAt(text, a);
      var j := LastNewline(text, a + 2, RunEnd(text, a + 1, CapsOrSpace)).value;
      assert e == j + 1;
    } else {
      assert MatchAt(p, text, a).Some? ==> CapWordEnd(text, a).Some?;
      var c := CapWordEnd(text, a).value;
      assert IsUpper(text[a]);
    }
  }

  /** A name taken from a pattern of `ps` opens with an upper-case letter. */
  lemma {:induction false} NameFromStartsUpper(text: string, ps: seq<Pattern>)
    requires forall j :: 0 <= j < |ps| ==> ps[j] in NamePatterns
    ensures NameFrom(text, ps) == NotFound || (NameFrom(text, ps) != [] && IsUpper(NameFrom(text, ps)[0]))
    decreases |ps|
  {
    if ps != [] {
      match Search(ps[0], text)
      case None =>
        assert forall j :: 0 <= j < |ps| - 1 ==> ps[1..][j] == ps[j + 1];
        NameFromStartsUpper(text, ps[1..]);
      case Some((a, e)) =>
        NameGroupStartsUpper(ps[0], text, a, e);
        var g := Group(ps[0], text, a, e);
        assert Title(g)[0] == UpperChar(g[0]);
    }
  }

  /** A name that was found opens with an upper-case letter. */
  lemma NameStartsUpper(text: string)
    ensures NameOf(text) != NotFound ==> NameOf(text) != [] && IsUpper(NameOf(text)[0])
  {
    NameFromStartsUpper(text, NamePatterns);
  }

  // ---------------------------------------------------------------- e-mail

  /** `list(set(re.findall(email_pattern, text)))` (line 65). */
  function EmailsOf(text: string): (r: seq<string>)
    ensures Distinct(r) && |r| <= |FindAll(Email, text)|
  {
    Dedup(FindAll(Email, text))
  }

  /** An address with a non-empty part on each side of an `@`. */
  ghost predicate HasAt(x: string) {
    exists k :: 0 < k < |x| - 1 && x[k] == '@'
  }

  lemma EmailMatchHasAt(text: string, x: string)
    requires IsMatchText(Email, text, x)
    ensures HasAt(x)
  {
    var a: nat, e: nat :| a < e <= |text| && MatchAt(Email, text, a) == Some(e) && x == text[a..e];
    var at := RunEnd(text, a, EmailChars);
    assert x[at - a] == '@';
  }

  /** The e-mails are the matches of the e-mail pattern, each once, each around an `@`. */
  lemma EmailsAreDistinctMatches(text: string)
    ensures Distinct(EmailsOf(text))
    ensures forall x :: x in EmailsOf(text) <==> x in FindAll(Email, text)
    ensures forall x :: x in EmailsOf(text) ==> HasAt(x)
  {
    DedupMembers(FindAll(Email, text));
    FindAllFromMatches(Email, text, 0);
    forall x | x in EmailsOf(text) ensures HasAt(x) {
      EmailMatchHasAt(text, x);
    }
  }

  // ---------------------------------------------------------------- phone

  /** `phone_match.group(0)` for the first phone match (lines 68-70). */
  function PhoneOf(text: string): (r: string)
    ensures Search(Phone, text).Some? ==> DigitCount(r) >= 10
  {
    match Search(Phone, text)
    case None => NotFound
    case Some((a, e)) => text[a..e]
  }

  lemma {:induction false} NoDigitsCount(s: string)
    requires forall j :: 0 <= j < |s| ==> !IsDigit(s[j])
    ensures DigitCount(s) == 0
  {
    if s != [] { NoDigitsCount(s[1..]); }
  }

  /** A phone number that was found holds at least ten digits; "Not found" means no match. */
  lemma PhoneHasTenDigits(text: string)
    ensures PhoneOf(text) != NotFound ==> DigitCount(PhoneOf(text)) >= 10
    ensures PhoneOf(text) == NotFound <==> !Found(Phone, text)
  {
    match Search(Phone, text)
    case None =>
    case Some((a, e)) =>
      assert MatchAt(Phone, text, a) == PhoneAt(text, a);
      NoDigitsCount(NotFound);
  }

  // ---------------------------------------------------------------- links

  /** The three link fields of the record. */
  datatype Links = Links(linkedin: string, github: string, portfolio: string)

  const NoLinks := Links(NotFound, NotFound, NotFound)

  datatype LinkKind = LinkedIn | GitHub | Portfolio | Unfiled

  /** `url.rstrip('.,)')` (line 75). */
  function CleanUrl(url: string): string {
    RStripChars(url, {'.', ',', ')'})
  }

  /** Which field the `if`/`elif` chain at lines 76-81 files `url` under. */
  function KindOf(url: string): LinkKind {
    if Contains(url, "linkedin.com") then LinkedIn
    else if Contains(url, "github.com") then GitHub
    else if Contains(Lower(url), "portfolio") || Contains(Lower(url), "personal") then Portfolio
    else Unfiled
  }

  function Field(links: Links, k: LinkKind): string
    requires k != Unfiled
  {
    match k
    case LinkedIn => links.linkedin
    case GitHub => links.github
    case Portfolio => links.portfolio
  }

  /** One iteration of the loop at lines 74-81. */
  function File(links: Links, url: string): (r: Links)
    ensures forall k :: k != Unfiled ==> Field(r, k) == if KindOf(url) == k then url else Field(links, k)
  {
    match KindOf(url)
    case LinkedIn => links.(linkedin := url)
    case GitHub => links.(github := url)
    case Portfolio => links.(portfolio := url)
    case Unfiled => links
  }

  /** The link fields after the loop has filed each of `urls`. */
  function LinksAfter(urls: seq<string>): Links
    decreases |urls|
  {
    if urls == [] then NoLinks
    else File(LinksAfter(urls[..|urls| - 1]), CleanUrl(urls[|urls| - 1]))
  }

  lemma LinksAfterSnoc(urls: seq<string>, i: nat)
    requires i < |urls|
    ensures LinksAfter(urls[..i + 1]) == File(LinksAfter(urls[..i]), CleanUrl(urls[i]))
  {
    assert urls[..i + 1][..i] == urls[..i];
  }

  method FileUrls(urls: seq<string>) returns (links: Links)
    ensures links == LinksAfter(urls)
  {
    links := NoLinks;
    var i := 0;
    while i < |urls|
      invariant 0 <= i <= |urls|
      invariant links == LinksAfter(urls[..i])
    {
      LinksAfterSnoc(urls, i);
      var url := CleanUrl(urls[i]);
      if Contains(url, "linkedin.com") {
        links := links.(linkedin := url);
      } else if Contains(url, "github.com") {
        links := links.(github := url);
      } else if Contains(Lower(url), "portfolio") || Contains(Lower(url), "personal") {
        links := links.(portfolio := url);
      }
      i := i + 1;
    }
    TakeAll(urls);
  }

  /** The last URL of a kind is the one kept in that kind's field. */
  lemma {:induction false} LastLinkWins(urls: seq<string>, k: nat, kind: LinkKind)
    requires kind != Unfiled && k < |urls| && KindOf(CleanUrl(urls[k])) == kind
    requires forall j :: k < j < |urls| ==> KindOf(CleanUrl(urls[j])) != kind
    ensures Field(LinksAfter(urls), kind) == CleanUrl(urls[k])
    decreases |urls|
  {
    var init := urls[..|urls| - 1];
    if k < |init| {
      assert forall j :: k < j < |init| ==> init[j] == urls[j];
      LastLinkWins(init, k, kind);
    }
  }

  /** With no URL of a kind, that field stays "Not found". */
  lemma {:induction false} NoLinkNotFound(urls: seq<string>, kind: LinkKind)
    requires kind != Unfiled
    requires forall j :: 0 <= j < |urls| ==> KindOf(CleanUrl(urls[j])) != kind
    ensures Field(LinksAfter(urls), kind) == NotFound
    decreases |urls|
  {
    if urls != [] {
      var init := urls[..|urls| - 1];
      assert forall j :: 0 <= j < |init| ==> init[j] == urls[j];
      NoLinkNotFound(init, kind);
    }
  }

  /** A field that was set holds one of the cleaned URLs, of the field's kind. */
  lemma {:induction false} LinkIsOfItsKind(urls: seq<string>, kind: LinkKind)
    requires kind != Unfiled
    ensures Field(LinksAfter(urls), kind) == NotFound ||
      exists j :: 0 <= j < |urls| && CleanUrl(urls[j]) == Field(LinksAfter(urls), kind) &&
        KindOf(CleanUrl(urls[j])) == kind
    decreases |urls|
  {
    if urls != [] {
      var init := urls[..|urls| - 1];
      LinkIsOfItsKind(init, kind);
      assert forall j :: 0 <= j < |init| ==> init[j] == urls[j];
    }
  }

  /** A string that opens with `http://` or `https://`. */
  ghost predicate IsWebUrl(u: string) {
    OccursAt(u, "http://", 0) || OccursAt(u, "https://", 0)
  }

  /** A URL match opens with its scheme. */
  lemma UrlAtScheme(text: string, a: nat, e: nat)
    requires a <= |text| && MatchAt(Url, text, a) == Some(e)
    ensures IsWebUrl(text[a..e])
  {
    assert MatchAt(Url, text, a) == UrlAt(text, a);
    if OccursAt(text, "https://", a) {
      assert text[a..e][..8] == text[a..a + 8];
    } else {
      assert text[a..e][..7] == text[a..a + 7];
    }
  }

  /** The text of a URL match opens with its scheme. */
  lemma UrlMatchScheme(text: string, x: string)
    requires IsMatchText(Url, text, x)
    ensures IsWebUrl(x)
  {
    var a: nat, e: nat :| a < e <= |text| && MatchAt(Url, text, a) == Some(e) && x == text[a..e];
    UrlAtScheme(text, a, e);
  }

  /** Stripping trailing punctuation from a URL keeps its scheme. */
  lemma CleanUrlIsWebUrl(x: string)
    requires IsWebUrl(x)
    ensures IsWebUrl(CleanUrl(x))
  {
    var n := if OccursAt(x, "https://", 0) then 8 else 7;
    assert x[n - 1] == '/';
    var r := CleanUrl(x);
    assert r == x[..|r|];
    assert |r| >= n;
    assert r[..n] == x[..n];
  }

  /** The link fields of `extract_personal_info(text)`. */
  function LinksOf(text: string): Links {
    LinksAfter(FindAll(Url, text))
  }

  /** Every link field is "Not found" or a web URL found in the text, of the field's kind. */
  lemma LinksAreWebUrls(text: string, kind: LinkKind)
    requires kind != Unfiled
    ensures Field(LinksOf(text), kind) == NotFound ||
      (IsWebUrl(Field(LinksOf(text), kind)) && KindOf(Field(LinksOf(text), kind)) == kind)
  {
    var urls := FindAll(Url, text);
    LinkIsOfItsKind(urls, kind);
    FindAllFromMatches(Url, text, 0);
    if Field(LinksOf(text), kind) != NotFound {
      var j :| 0 <= j < |urls| && CleanUrl(urls[j]) == Field(LinksAfter(urls), kind) &&
        KindOf(CleanUrl(urls[j])) == kind;
      assert urls[j] in urls;
      UrlMatchScheme(text, urls[j]);
      CleanUrlIsWebUrl(urls[j]);
    }
  }

  // ---------------------------------------------------------------- the record

  /** What `extract_personal_info(text)` returns. */
  function PersonalInfoOf(text: string): Info {
    var links := LinksOf(text);
    Info(NameOf(text), EmailsOf(text), PhoneOf(text), links.linkedin, links.github, links.portfolio)
  }

  method ExtractPersonalInfo(text: string) returns (info: Info)
    ensures info == PersonalInfoOf(text)
  {
    info := Info(NotFound, [], NotFound, NotFound, NotFound, NotFound);
    var name := ExtractName(text);
    info := info.(name := name);
    info := info.(email := Dedup(FindAll(Email, text)));
    var phone := Search(Phone, text);
    if phone.Some? {
      info := info.(phone := text[phone.value.0..phone.value.1]);
    }
    var links := FileUrls(FindAll(Url, text));
    info := info.(linkedin := links.linkedin, github := links.github, portfolio := links.portfolio);
  }
}
