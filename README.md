# Resume parser: a Dafny model of the extractors

This project models the text-processing core of the resume parser. That core is the
Streamlit module `resume_parser.py` and the helpers of the Flask module `app.py`.
Given the plain text of a resume, the extractors return:

- the personal details: name, e-mails, phone number, LinkedIn, GitHub and portfolio links;
- the education entries: institution, degree, dates, GPA and details;
- the projects: title and description lines;
- the certifications and internships;
- the skills, grouped by category.

`app.py` adds a file-name filter, a simpler name finder and a keyword-based skill finder.

Each extractor is an imperative Dafny `method` with the loops of the Python code. It is
proved equal to a specification function that folds one step over the lines or entries
from left to right. Lemmas then state what the result means. The regular expressions are
hand-written matchers (module `Patterns`) that follow what Python's backtracking engine
does for each particular pattern. The section regexes are matched by a scan for the first
start keyword, then the first newline after it, then the first stop keyword (module
`Sections`).

Modules:

- `Wrappers`: the `Option` type.
- `Text`: the Python string builtins used:
  - `strip`, `lower`, `upper`, `title`, `capitalize`;
  - `split`, `join`, `replace`, `in`, `<`;
  - `re.sub(r'\s+', ' ', …)`.
- `Seqs`: filter-map, duplicate removal.
- `Patterns`: the regexes, `re.search` and `re.findall`.
- `Sections`: the four section regexes.
- `Entries`: `re.split(r'\n(?=[A-Z][a-z])', …)` and the stripped non-blank lines of an entry.
- `PersonalInfo`, `Education`, `Experience`, `Certifications`, `SkillSections`: the extractors of `resume_parser.py`.
- `FlaskApp`: `allowed_file`, `extract_name` and `extract_skills` of `app.py`.

Notes on what the code does, which the model follows:

- `app.extract_skills` searches each keyword with `\b…\b` as written, so `c++` and `c#` are
  found only when a word character follows them (see Findings). The corrected match is
  modelled beside it as `IntendedSkills`.
- The experience fallback title is "Work experience not found".
- Each link field is overwritten by every later URL of its kind, so it keeps the last one.
- The second name pattern may span a line break, because `\s+` matches a newline. For
  "John Smith\nSoftware Engineer", `extract_personal_info` therefore yields the
  title-cased "John Smith\nSoftware Engineer". `app.extract_name` yields "John Smith".
- Only the first phone match is kept.
- The skills of `resume_parser.py` are grouped by the category lines of the section
  (" - " or ":"). Lines without a category go to the current one, "Other" at first.
  A category line replaces the list stored under its name.
- The skills section starts only at SKILLS or TECHNICAL SKILLS.
- The degree pattern knows Bachelor, B.Tech, B.E, Master, M.Tech and Ph.D, and nothing else.

## Model

| member | source | states |
|---|---|---|
| Sections.KeywordAtMeaning | resume_parser.py:91 | a keyword alternative matches at a position exactly when one of the listed keywords occurs there in any letter case, and the earliest listed one is taken |
| Sections.StartFromFirst | resume_parser.py:90-94 | the start keyword found is the leftmost one; none is found only when no keyword occurs anywhere |
| Sections.StartFromIs | resume_parser.py:90-94 | a keyword position with none before it is the one the search returns |
| Sections.NoStart | resume_parser.py:90-94 | with no keyword anywhere the search finds nothing |
| Sections.NewlineFromFirst | resume_parser.py:91 | the lazy `.*?` before the group stops at the first newline after the keyword |
| Sections.NewlineFromIs | resume_parser.py:91 | the first newline after a position is the one found, and none is found when there is none |
| Sections.StopFromFirst | resume_parser.py:91 | the lazy group ends at the first position where the stop lookahead holds |
| Sections.StopFromIs | resume_parser.py:91 | a stop position with no stop before it is where the group ends |
| Sections.SpanAfterMeaning | resume_parser.py:91 | after the keyword, the group exists exactly when a newline follows; it runs from the first newline to the first stop after it |
| Sections.SpanAfterStart | resume_parser.py:90-94 | once the first start keyword is known, the match is determined by what follows it |
| Sections.SectionSpanMeaning | resume_parser.py:90-94 | no match without a start keyword; otherwise a match exactly when a newline follows the first keyword, from that newline to the first stop |
| Sections.SectionBody | resume_parser.py:96-97 | group 1 of a section match starts with its newline |
| Sections.FindSection | resume_parser.py:90-94 | the imperative scan (start, newline, stop) returns the span of the regex match |
| Sections.FindSectionBody | resume_parser.py:150-154 | the scan of the experience, certification and skills regexes gives group 1 of the match |
| Entries.SplitEntries | resume_parser.py:97 | the split gives at least one piece, and every piece after the first opens with an upper-case then a lower-case letter |
| Entries.JoinEntries | resume_parser.py:158 | the split drops only the separating newlines: joining the pieces with newlines gives the section body back |
| Entries.EntryLines | resume_parser.py:99 | every line of an entry that is kept is non-blank and stripped |
| Entries.NonBlankMembers | resume_parser.py:163 | the kept lines are exactly the non-blank stripped lines of the entry |
| Entries.NonBlankEmpty | resume_parser.py:100-101 | an entry has no line exactly when all its lines are blank |
| Entries.NonBlankFirst | resume_parser.py:99 | the first kept line is the first line that is not blank, stripped |
| Entries.EntryLinesFirst | resume_parser.py:99-104 | an entry keeps a line exactly when one of its lines is not blank, and the first kept line is the first such line, stripped |
| Entries.BlankEntryHasNoLines | resume_parser.py:160-165 | an entry that is all white space keeps no line, so the `proj.strip()` test drops nothing the other test keeps |
| Patterns.SearchFromFirst | resume_parser.py:59 | `re.search` returns the leftmost match, and no match only when the pattern matches nowhere |
| Patterns.SearchFromIs | resume_parser.py:59 | a match with none to its left is what `re.search` returns |
| Patterns.FindAllFromMatches | resume_parser.py:65 | every string `re.findall` returns is the text of a match of the pattern |
| Patterns.PhoneAt | resume_parser.py:68 | a phone match holds at least ten digits |
| Patterns.PhoneDigitsDemanded | resume_parser.py:68 | the phone pattern's body demands ten digits and, with its prefix, eleven |
| Patterns.MatchAtomsDigits | resume_parser.py:68 | a match of a sequence of greedy atoms holds at least the digits the atoms demand |
| Patterns.TryCountsDigits | resume_parser.py:68 | backtracking over the counts of the first atom keeps that digit bound |
| Patterns.GpaKeywordLen | resume_parser.py:119 | the GPA keyword is `CGPA`, `GPA` or `Score`, of length 4, 3 or 5 |
| Patterns.DegreeAt | resume_parser.py:125 | a degree match starts with a letter |
| Patterns.DateAt | resume_parser.py:113 | a date range opens with a letter and ends with the four digits of a year or with `Present` |
| Patterns.GpaAt | resume_parser.py:119 | a GPA match opens with one of its keywords and ends with a digit or a dot |
| Patterns.EmailAt | resume_parser.py:65 | an e-mail match opens and ends with a character of `[\w\.-]` |
| Patterns.UrlAt | resume_parser.py:73 | a URL match opens with `http://` or `https://` and ends with a character that is not white space |
| Patterns.CapWordEnd | resume_parser.py:54 | a capitalised word opens with an upper-case letter and is at least two characters long |
| Patterns.TitleWordsAt | app.py:37 | a run of Title-Case words opens with an upper-case letter |
| Patterns.PageNumberAt | resume_parser.py:170 | a page-number match is `page ` followed by at least one digit, and ends with a digit |
| Patterns.CapsLineAt | resume_parser.py:53 | a capitals-line match is non-empty and stays inside the text |
| Patterns.LastBeforeNewline | resume_parser.py:55 | the third name pattern ends at one of the word ends, and a newline follows it |
| PersonalInfo.ExtractName | resume_parser.py:58-62 | the loop over the three name patterns returns the name the specification gives |
| PersonalInfo.NameMatch | resume_parser.py:59-61 | a pattern yields a name exactly when it matches the text |
| PersonalInfo.NameFromFirst | resume_parser.py:58-62 | the first pattern that matches decides the name; the later ones are not tried |
| PersonalInfo.TitleNeverNotFound | resume_parser.py:61 | no title-cased string equals "Not found", so a found name is never taken for the default |
| PersonalInfo.NameFromNotFound | resume_parser.py:58-62 | the name stays "Not found" exactly when none of the patterns tried matches |
| PersonalInfo.NameNotFound | resume_parser.py:42-62 | the name is "Not found" exactly when none of the three patterns matches |
| PersonalInfo.NameGroupStartsUpper | resume_parser.py:52-56 | the group of each name pattern is non-empty and opens with an upper-case letter |
| PersonalInfo.NameFromStartsUpper | resume_parser.py:58-62 | a name taken from any of the patterns opens with an upper-case letter |
| PersonalInfo.NameStartsUpper | resume_parser.py:58-62 | a found name is non-empty and opens with an upper-case letter |
| PersonalInfo.EmailMatchHasAt | resume_parser.py:65 | every e-mail match has a non-empty part on each side of an `@` |
| PersonalInfo.EmailsOf | resume_parser.py:65 | the e-mail list has no duplicate and is no longer than the list of matches |
| PersonalInfo.EmailsAreDistinctMatches | resume_parser.py:65 | the e-mail list has no duplicate, holds exactly the strings of the matches, and each one has an `@` inside |
| PersonalInfo.PhoneHasTenDigits | resume_parser.py:67-70 | a phone number that was found holds at least ten digits; "Not found" means no match |
| PersonalInfo.PhoneOf | resume_parser.py:68-70 | a phone number taken from a match holds at least ten digits |
| PersonalInfo.File | resume_parser.py:76-81 | one URL changes the field of its kind only, and an unfiled URL changes nothing |
| PersonalInfo.LinksAfterSnoc | resume_parser.py:74-75 | one more URL is cleaned of trailing `.`, `,`, `)` and then filed |
| PersonalInfo.FileUrls | resume_parser.py:73-81 | the loop over the URLs gives the link fields the specification gives |
| PersonalInfo.LastLinkWins | resume_parser.py:74-81 | a field holds the last cleaned URL of its kind |
| PersonalInfo.NoLinkNotFound | resume_parser.py:46-48 | with no URL of a kind, that field stays "Not found" |
| PersonalInfo.LinkIsOfItsKind | resume_parser.py:74-81 | a field that was set holds one of the cleaned URLs, and that URL is of the field's kind |
| PersonalInfo.UrlAtScheme | resume_parser.py:73 | a URL match opens with `http://` or `https://` |
| PersonalInfo.UrlMatchScheme | resume_parser.py:73 | every string the URL `findall` returns opens with its scheme |
| PersonalInfo.CleanUrlIsWebUrl | resume_parser.py:75 | removing trailing punctuation keeps the scheme |
| PersonalInfo.LinksAreWebUrls | resume_parser.py:72-81 | every link field is "Not found", or a web URL whose kind is the field's kind |
| PersonalInfo.ExtractPersonalInfo | resume_parser.py:40-83 | the method builds the record `PersonalInfoOf` gives: the name of `NameOf`, the e-mails of `EmailsOf`, the phone of `PhoneOf` and the links of `LinksOf`, which the rows above describe |
| Education.TakeDate | resume_parser.py:113-116 | a date is found exactly when the date pattern matches, and it is the text of the leftmost match; the line then loses every copy of it, at least one, and is stripped; with none the line is unchanged |
| Education.OccursCIEqual | resume_parser.py:119 | the text the case-blind comparison reads equals the keyword, ignoring case |
| Education.GpaKeyword | resume_parser.py:119 | the keyword a GPA match starts with is one of its three keywords |
| Education.GpaGroups | resume_parser.py:119-121 | the groups of a GPA match are a keyword that opens the match and a run of digits and dots that ends it |
| Education.TakeGpa | resume_parser.py:119-122 | a GPA is found exactly when the GPA pattern matches, and it is the groups of the leftmost match; the line then loses every copy of the whole match, at least one, and is stripped; with none the line is unchanged |
| Education.CourseworkOf | resume_parser.py:131-135 | a coursework line is stored exactly when it holds a `:` or `,`, and then with the coursework prefix |
| Education.ReadLine | resume_parser.py:112-139 | reading a line yields a well-formed GPA, a non-empty date, and a degree flag exactly when the rest matches the degree pattern |
| Education.Step | resume_parser.py:112-139 | a line never changes the institution; once set, the degree never changes; the line that sets the degree adds no detail |
| Education.RunSnoc | resume_parser.py:111 | one more line is one more step of the loop |
| Education.EntryOf | resume_parser.py:99-109 | an entry yields a record exactly when it keeps a line; the institution is the first kept line, non-empty and stripped |
| Education.EducationOf | resume_parser.py:143 | the result is never empty, and it is the placeholder alone or only real entries |
| Education.EntryInstitution | resume_parser.py:99-104 | an entry yields no record exactly when all its lines are blank; otherwise the institution is its first non-blank line, stripped |
| Education.NoRecords | resume_parser.py:98-141 | the entries yield no record exactly when none of them keeps a line, and a record is a real entry |
| Education.EducationPlaceholder | resume_parser.py:85-143 | the placeholder is returned exactly when there is no education section or none of its entries keeps a line |
| Education.RecordLine | resume_parser.py:113-122 | the method records the date and the GPA and removes them from the line |
| Education.ApplyLine | resume_parser.py:125-139 | the method stores the rest of the line as the degree or a detail, or drops it |
| Education.ProcessLine | resume_parser.py:112-139 | one pass of the loop body is one step of the specification |
| Education.ReadLinesInto | resume_parser.py:111-139 | the loop over the lines after the head gives the record the specification gives |
| Education.ReadEntry | resume_parser.py:99-141 | one entry gives the record the specification gives, or none |
| Education.AddEntry | resume_parser.py:98-141 | one entry adds its record when it has one |
| Education.ReadEntries | resume_parser.py:98-141 | the loop over the entries gives the list the specification gives |
| Education.ExtractEducation | resume_parser.py:85-143 | the method returns what the specification gives, placeholder included |
| Education.DegreeLineNotBlank | resume_parser.py:125-127 | a line the degree pattern matches is not blank, so a stored degree is non-empty |
| Education.ReadLinesAreReadings | resume_parser.py:112-139 | the readings of the lines agree with the rest of each line |
| Education.DatesLastWins | resume_parser.py:113-116 | `dates` holds the date of the last line that had one |
| Education.NoDateKeepsDates | resume_parser.py:105 | without a date line, `dates` stays as it was |
| Education.GpaLastWins | resume_parser.py:119-122 | `gpa` is "keyword: number" from the last line that had a GPA |
| Education.NoGpaKeepsGpa | resume_parser.py:108 | without a GPA line, `gpa` stays as it was |
| Education.NoDegreeKeepsDegree | resume_parser.py:105 | without a degree line, `degree` stays as it was |
| Education.DegreeFirstWins | resume_parser.py:125-128 | the first line matching the degree pattern gives the degree, stripped, and later such lines do not change it |
| Education.StepKeepsDetailsWellFormed | resume_parser.py:130-139 | one line adds at most one detail, and only a well-formed one |
| Education.RunKeepsDetailsWellFormed | resume_parser.py:111-139 | every stored detail is a prefixed coursework list, or a non-empty line free of "page" and "http" |
| Education.EducationDetailsWellFormed | resume_parser.py:85-143 | every entry returned has only well-formed details |
| Experience.Unbullet | resume_parser.py:169 | a line that does not open with a bullet is unchanged; otherwise the bullet and exactly the white space after it are removed, and the rest of the line is kept |
| Experience.DescItem | resume_parser.py:169-170 | a line is kept exactly when it is non-empty and does not mention a page number |
| Experience.Describe | resume_parser.py:169-170 | the description has at most as many items as there are lines after the title |
| Experience.ProjectOf | resume_parser.py:159-171 | an entry yields a project exactly when it keeps a line; the title is the first kept line and the description is what `Describe` keeps of the rest |
| Experience.Projects | resume_parser.py:159-171 | every element the loop adds is a project, not the placeholder |
| Experience.ExperienceOf | resume_parser.py:173 | the result is never empty, and it is the placeholder alone or only projects |
| Experience.ProjectTitle | resume_parser.py:160-168 | an entry yields no project exactly when all its lines are blank; otherwise the title is its first non-blank line, stripped |
| Experience.NoProjects | resume_parser.py:159-171 | the entries yield no project exactly when none of them keeps a line |
| Experience.ExperiencePlaceholder | resume_parser.py:145-173 | the placeholder is returned exactly when there is no experience section or none of its entries keeps a line |
| Experience.ExtractExperience | resume_parser.py:145-173 | the method returns what the specification gives, placeholder included |
| Experience.PageInSuffix | resume_parser.py:170 | a page number in the part of a line after its bullet is a page number in the line |
| Experience.LowerSuffix | resume_parser.py:170 | lower-casing commutes with dropping the bullet |
| Experience.DescriptionHasNoPageNumber | resume_parser.py:169-170 | no description item mentions a page number, even after its bullet is removed |
| Experience.DescriptionKeepsOtherLines | resume_parser.py:169-170 | every other line after the title is in the description, without its bullet |
| Experience.ProjectsHaveNoPageNumber | resume_parser.py:159-171 | no project of the loop lists a page-number line |
| Experience.ExperienceHasNoPageNumber | resume_parser.py:145-173 | no description item that `extract_experience` returns mentions a page number |
| Certifications.CleanItem | resume_parser.py:205-210 | a cleaned line is empty or well formed: no leading white space, single blanks, no final `.` or `,`; a well-formed line without a bullet comes out unchanged |
| Certifications.CleanItemEmpty | resume_parser.py:205-214 | a line is cleaned away, and so never stored, exactly when past its bullet it holds only `.` and `,` |
| Certifications.CleanItemKeepsText | resume_parser.py:205-210 | the cleaned item keeps the characters of the line past its bullet other than white space, in order, and loses only a tail of `.` and `,` |
| Certifications.TidyEmpty | resume_parser.py:209-210 | collapsing and trimming give nothing exactly when the text holds only `.` and `,` |
| Certifications.TidyKeepsText | resume_parser.py:209-210 | collapsing and trimming keep the characters other than white space, less a tail of `.` and `,` |
| Certifications.TrimKeepsText | resume_parser.py:210 | `rstrip('.,')` removes only a tail of `.` and `,` |
| Certifications.ReadLine | resume_parser.py:192-210 | a line is blank exactly when it strips to nothing, a header exactly when it names a bucket, and otherwise a cleaned entry |
| Certifications.RunSnoc | resume_parser.py:191 | one more line is one more step of the loop |
| Certifications.ProcessLine | resume_parser.py:192-214 | one pass of the loop body is one step of the specification |
| Certifications.ExtractCertifications | resume_parser.py:175-216 | the method returns `CertificationsOf`, the left fold of the loop step over the section's lines; with no section both lists are empty |
| Certifications.RunKeepsItemsWellFormed | resume_parser.py:204-214 | the scan stores only well-formed items |
| Certifications.CertificationItemsWellFormed | resume_parser.py:175-216 | every item returned is well formed |
| Certifications.RunAppend | resume_parser.py:191 | scanning two runs of lines is scanning one after the other |
| Certifications.LastHeaderWins | resume_parser.py:196-202 | after a header line the active bucket is the one the last header named |
| Certifications.NoHeaderKeepsBucket | resume_parser.py:196-202 | without a header line the active bucket never changes |
| Certifications.NoBucketDropsLines | resume_parser.py:190-214 | before any header, lines are dropped and the result stays empty |
| Certifications.LinesBeforeFirstHeaderDropped | resume_parser.py:190-214 | the lines before the first header change nothing |
| Certifications.ItemsComeFromBodyLines | resume_parser.py:213-214 | every stored item was there before, or is the cleaned entry of one of the lines |
| SkillSections.Assign | resume_parser.py:247 | assigning a category sets that list and leaves every other list as it was |
| SkillSections.AssignValid | resume_parser.py:247 | assignment keeps the keys distinct and in step with the lists |
| SkillSections.NonEmptyStripped | resume_parser.py:246 | every item is non-empty and stripped |
| SkillSections.SplitItemsClean | resume_parser.py:246-255 | every item is non-empty, stripped, and free of `,` and `;` |
| SkillSections.NonEmptyStrippedFrom | resume_parser.py:246 | every item comes from one of the split parts |
| SkillSections.ReadLine | resume_parser.py:238-256 | a line is blank exactly when it strips to nothing, a category line exactly when it holds " - " or ":", and its items are clean |
| SkillSections.InitialValid | resume_parser.py:220-226 | the initial mapping is well formed and has a list for "Other" |
| SkillSections.Step | resume_parser.py:237-256 | every line keeps a list for the current category |
| SkillSections.RunValid | resume_parser.py:237-256 | the scan keeps the mapping well formed |
| SkillSections.NonEmptyCategories | resume_parser.py:259 | the returned mapping keeps exactly the categories with non-empty lists, with their lists |
| SkillSections.KeepNonEmpty | resume_parser.py:259 | the keys kept are exactly those with a non-empty list, in order and distinct |
| SkillSections.RunSnoc | resume_parser.py:237 | one more line is one more step of the loop |
| SkillSections.ProcessLine | resume_parser.py:238-256 | one pass of the loop body is one step of the specification |
| SkillSections.ScanBody | resume_parser.py:235-256 | the loop over the section's lines gives the mapping the specification gives |
| SkillSections.ExtractSkills | resume_parser.py:218-259 | the method returns `SkillsOf`: the left fold of the loop step over the section's lines, with the empty categories dropped |
| SkillSections.NoEmptyCategory | resume_parser.py:258-259 | no returned category has an empty list |
| SkillSections.ResultWellFormed | resume_parser.py:259 | the returned keys are distinct, and they are exactly the keys of the returned mapping |
| SkillSections.RunItemsClean | resume_parser.py:237-256 | the scan stores only clean items |
| SkillSections.SkillsClean | resume_parser.py:218-259 | every skill returned is non-empty, stripped, and free of `,` and `;` |
| SkillSections.AddNew | resume_parser.py:247 | a new category goes after the existing keys, which keep their order |
| SkillSections.KeysInFirstSeenOrder | resume_parser.py:220-252 | the keys are the five initial categories, then each new category in first-seen order |
| SkillSections.KeepNonEmptyAllEmpty | resume_parser.py:259 | with every list empty, no key is kept |
| SkillSections.NoSectionNoSkills | resume_parser.py:235-259 | without a skills section the result is empty |
| SkillSections.ResultKeyOrder | resume_parser.py:218-259 | the returned keys keep the first-seen order and only categories with items |
| SkillSections.PlainLinesExtend | resume_parser.py:253-256 | plain lines extend the current category with their items and change no other list |
| SkillSections.RunAppend | resume_parser.py:237 | scanning two runs of lines is scanning one after the other |
| SkillSections.ReplaceThenExtend | resume_parser.py:243-256 | the last category line replaces that category's list, and the plain lines after it extend it |
| SkillSections.AllPlainGoesToOther | resume_parser.py:236-256 | with no category line, every item goes to "Other", in order |
| FlaskApp.LastIndexOf | app.py:18 | the index found holds the character, and none is found only when the character is absent |
| FlaskApp.LastIndexOfIsLast | app.py:18 | no later position holds the character |
| FlaskApp.AllowedFileMeaning | app.py:16-18 | a name is allowed exactly when it has a dot and the dot-free text after its last dot is `pdf`, `docx` or `txt` in any letter case |
| FlaskApp.AllowedFileExtension | app.py:16-18 | any stem followed by a dot and a listed extension, in any letter case, is allowed |
| FlaskApp.HeadLines | app.py:36 | the lines read are the first five lines of the text, or all of them when there are fewer |
| FlaskApp.LineName | app.py:37-39 | a line yields a name exactly when its stripped text opens with Title-Case words, and the name is a non-empty prefix of that text |
| FlaskApp.ExtractName | app.py:34-40 | the loop with its early return gives the name the specification gives |
| FlaskApp.NameFromLinesFirst | app.py:36-39 | the first line that yields a name decides it |
| FlaskApp.AppNameFirstLine | app.py:34-40 | the name comes from the first of the first five lines that opens with Title-Case words |
| FlaskApp.TitleMatchShape | app.py:37 | a match opens with a capitalised word, then white space, then a capital |
| FlaskApp.MatchNotSentinel | app.py:37-40 | no match reads "Name not found" |
| FlaskApp.LineNameNotSentinel | app.py:37-40 | a name that was found is never "Name not found" |
| FlaskApp.NameFromLinesNotFound | app.py:36-40 | the loop returns "Name not found" exactly when no line yields a name |
| FlaskApp.AppNameNotFound | app.py:34-40 | the name is "Name not found" exactly when none of the first five lines opens with Title-Case words |
| FlaskApp.AsWrittenNeedsWordAfter | app.py:47 | as written, a keyword ending in a non-word character is found only when a word character follows it |
| FlaskApp.CppMissedAsWritten | app.py:47 | the text "C++" is missed as written and found by the intended match |
| FlaskApp.DelimitedKeywordMatches | app.py:47 | a keyword set off by non-word characters or by the ends of the text is found |
| FlaskApp.SameCIWordChar | app.py:47 | ignoring case keeps a word character a word character |
| FlaskApp.AsWrittenAgreesOnWordKeywords | app.py:47 | for a keyword that starts and ends with a word character, the code's match is the intended one |
| FlaskApp.KeywordEnds | app.py:43-44 | only `c++` and `c#` end in a non-word character; every keyword is shorter than the fallback text |
| FlaskApp.SkillsAmongSnoc | app.py:46-48 | one more keyword adds its capitalised form exactly when the code's `\b…\b` search finds it |
| FlaskApp.SetHasLeast | app.py:49 | a non-empty set of strings has a least element |
| FlaskApp.SortStrings | app.py:49 | the result is strictly increasing and holds exactly the elements of the set |
| FlaskApp.StrictlySortedDistinct | app.py:49 | a strictly increasing list has no duplicate |
| FlaskApp.FindSkills | app.py:45-48 | the loop over the keywords gives the set the specification gives, with the code's `\b…\b` search |
| FlaskApp.FoundSkillsEmpty | app.py:45-49 | no skill is found exactly when the code's search finds no keyword, and the fallback text is never a skill |
| FlaskApp.ExtractSkills | app.py:42-49 | the result is the fallback alone exactly when the code's search finds no keyword; otherwise it is sorted and holds exactly the found skills |
| FlaskApp.SkillsAgreeExceptSymbols | app.py:43-48 | the code and the corrected whole-keyword match find the same skills, except possibly `C++` and `C#` |
| FlaskApp.CppSkillMissed | app.py:47-48 | for the text "C++", the code finds no `C++` skill and the corrected match finds it |
| FlaskApp.IntendedSkillsFindDelimited | app.py:47-48 | with the corrected match, every keyword set off by non-word characters or by the ends of the text is found |
| Seqs.FilterMapMembers | resume_parser.py:99 | a kept element is the image of an input element, and every image is kept |
| Seqs.FilterMapEmpty | resume_parser.py:173 | the result is empty exactly when no element is kept |
| Seqs.Dedup | resume_parser.py:65 | `list(set(…))` has no duplicate and is no longer than its input |
| Seqs.DedupMembers | resume_parser.py:65 | removing duplicates loses no element and adds none |
| Text.Strip | resume_parser.py:99 | the stripped text is the part of the line between its leading and its trailing white space, and neither starts nor ends with white space |
| Text.StripEmpty | resume_parser.py:99 | a line strips to nothing exactly when it is all white space |
| Text.LStrip | resume_parser.py:169 | the result is what follows the leading white space, and does not start with white space |
| Text.RemoveAllAbsent | resume_parser.py:116 | `replace` changes a line that does not contain the text in no way |
| Text.RemoveAllShrinks | resume_parser.py:116 | `replace` removes at least one copy of a text the line contains |
| Text.StrippedIsFixpoint | resume_parser.py:192 | stripping a stripped line changes nothing |
| Text.JoinSplit | resume_parser.py:191 | joining the pieces of a split with the separator gives the text back |
| Text.SplitOnChars | resume_parser.py:163 | every character of a piece of a split is a character of the text |
| Text.AfterFirst | resume_parser.py:132-133 | the split at the first `:`/`,` yields a second part exactly when the line holds one, and that part is what follows it |
| Text.Collapse | resume_parser.py:209 | every run of white space becomes one blank, with no two blanks in a row |
| Text.CollapseKeepsText | resume_parser.py:209 | collapsing keeps every character that is not white space, in order |
| Text.CollapseSpaceRun | resume_parser.py:209 | a whole run of white space becomes one blank |
| Text.CollapseAppend | resume_parser.py:209 | cut between white space and a character that is not, the two halves collapse separately, so each maximal run becomes one blank |
| Text.CollapseFixpoint | resume_parser.py:209 | a text whose only white space is single blanks is unchanged |
| Text.CollapseHasSpace | resume_parser.py:209 | white space anywhere leaves a blank |
| Text.NonSpaceLStrip | resume_parser.py:169 | `lstrip()` removes only white space |
| Text.Title | resume_parser.py:61 | each letter is upper-cased after a non-letter and lower-cased after a letter |
| Text.Capitalize | app.py:48 | the first character is upper-cased and the rest lower-cased |
| Text.LexLessTotal | app.py:49 | Python's string order is total on distinct strings |
| Text.LexLessTransitive | app.py:49 | Python's string order is transitive |

## Left out

- Reading files is left out: `extract_text` (PDF, DOCX, plain text) and `extract_text_from_file`. The model starts from the extracted text.
- The Streamlit page and the display functions are left out, because they are user interface. So are the Flask routes, the upload folder and the size limit, because they are web I/O.
- Case folding, `\w` and `\d` are ASCII-only. In Python, `\w` and `\d` also match other Unicode letters and digits, `lower()`, `upper()` and `title()` change non-ASCII letters too, and `re.IGNORECASE` folds a few non-ASCII letters onto ASCII ones. For example, `ſ` (U+017F) matches `s` in "Master" or "Score" (resume_parser.py:119, 125), and the Kelvin sign K (U+212A) matches `k`. `[A-Za-z]` without IGNORECASE (the date pattern) is ASCII-only in Python too, as in the model. `\s` and `strip()` use the full white-space set of Python's `str.isspace`.
- The regex engine is not modelled in general. Each pattern is a hand-written matcher that follows the engine's backtracking for that one pattern.
- PersonalInfo.EmailsOf: the order of `list(set(…))` is unspecified in Python. The model keeps each address where it first occurs, and the lemmas state only that there are no duplicates and which addresses are there.
- Text.RemoveAll: its lemmas state that a line without the text is unchanged and that at least one copy goes. They do not state that no copy is left, because `replace` can leave one: `"aabb".replace("ab", "")` gives `"ab"`.
- FlaskApp.SortStrings: `sorted` is modelled by repeated selection of the least element. Only the sorted result is stated, not Python's algorithm.
- Patterns.DegreeAt tests that the first character is a letter before trying the keywords. This is redundant, since every keyword starts with a letter, and it gives the same result.
- The loop bodies of the longer extractors are split into helper methods (`ProcessLine`, `RecordLine`, `ApplyLine`) so that each stays small. They call nothing the Python loop does not.
- Integer width plays no part: the code does no arithmetic beyond indices.

## Findings

| source | as written | input that shows it | evidently intended | confidence | as-written member | corrected member |
|---|---|---|---|---|---|---|
| app.py:47 | `\b` after `re.escape('c++')` or `re.escape('c#')` requires a word character right after the `+` or `#` | the text "C++" | the keyword is found when no word character touches either end of it | not executed | FlaskApp.CppSkillMissed | FlaskApp.IntendedSkillsFindDelimited |
