/** Architecture decision records: numbered Markdown files "NNNN-<slug>.md" in the ADR directory,
    the numbering of new records, the slug made from a title, the lookup by number, and the edits
    of the status and related-intent sections. */
module AdrStore {
  import opened Common

  // ---------------------------------------------------------------------------
  // File names and numbering

  predicate EndsWithMd(name: string) {
    |name| >= 3 && name[|name| - 3..] == ".md"
  }

  /** ADR_PATTERN, `^(\d{4})-(.+)\.md$`, on a name the glob "*.md" lists: four digits, '-', at
      least one character other than a newline, ".md". The number is the value of the digits. */
  function NumberOf(name: string): (r: Option<nat>)
    ensures r.Some? ==> |name| >= 9 && EndsWithMd(name) && name[4] == '-' && AllDigits(name[..4])
  {
    if |name| >= 9 && AllDigits(name[..4]) && name[4] == '-' && EndsWithMd(name)
       && '\n' !in name[5..|name| - 3]
    then Some(DigitsValue(name[..4]))
    else None
  }

  /** The number of leading ASCII digits. */
  function DigitRun(s: string): (k: nat)
    ensures k <= |s| && AllDigits(s[..k]) && (k < |s| ==> !IsDigit(s[k]))
  {
    if s != [] && IsDigit(s[0]) then
      var k := 1 + DigitRun(s[1..]);
      assert s[..k] == [s[0]] + s[1..][..k - 1];
      k
    else 0
  }

  /** The corrected pattern `^(\d{4,})-(.*)\.md$`: four or more digits, '-', any characters other
      than a newline (possibly none), ".md". */
  function NumberOfFixed(name: string): (r: Option<nat>)
    ensures r.Some? ==> EndsWithMd(name)
  {
    var k := DigitRun(name);
    if k >= 4 && |name| >= k + 4 && name[k] == '-' && EndsWithMd(name)
       && '\n' !in name[k + 1..|name| - 3]
    then Some(DigitsValue(name[..k]))
    else None
  }

  /** The largest number `numberOf` reads from the names, 0 when it reads none. */
  ghost function MaxNumber(names: set<string>, numberOf: string -> Option<nat>): (m: nat)
    ensures forall n | n in names && numberOf(n).Some? :: numberOf(n).value <= m
    ensures m == 0 || exists n | n in names && numberOf(n).Some? :: numberOf(n).value == m
    decreases names
  {
    if names == {} then 0
    else
      var x :| x in names;
      var rest := MaxNumber(names - {x}, numberOf);
      if numberOf(x).Some? && numberOf(x).value > rest then numberOf(x).value else rest
  }

  /** get_next_number: one more than the largest number read from the file names, 1 when none. */
  ghost function NextNumber(names: set<string>, numberOf: string -> Option<nat>): nat {
    MaxNumber(names, numberOf) + 1
  }

  /** Any upper bound of the numbers that is attained (or 0 when there are none) is the maximum. */
  lemma MaxNumberUnique(names: set<string>, numberOf: string -> Option<nat>, m: nat)
    requires forall n | n in names && numberOf(n).Some? :: numberOf(n).value <= m
    requires m == 0 || exists n | n in names && numberOf(n).Some? :: numberOf(n).value == m
    ensures m == MaxNumber(names, numberOf)
  {
  }

  /** f"{number_str}-{slug}.md". */
  function AdrFileName(numberStr: string, slug: string): string {
    numberStr + "-" + slug + ".md"
  }

  /** f"{number:04d}" renders a record number as at least four digits, exactly four up to 9999. */
  lemma NumberStrSpec(n: nat)
    requires n >= 1
    ensures var s := FormatZeroPadded(n, 4);
      && AllDigits(s) && DigitsValue(s) == n && |s| >= 4
      && (|s| == 4 <==> n <= 9999)
  {
    var s := FormatZeroPadded(n, 4);
    NonNegativeRenderingValue(n, 4);
    assert Pow10(4) == 10000;
    if n <= 9999 {
      NatToStringLength(n, 4);
    } else {
      DigitsValueBound(s);
      if |s| == 4 { assert false; }
    }
  }

  /** The glob f"{number}-*.md" that get_adr lists. */
  predicate GlobFor(number: string, name: string) {
    |name| >= |number| + 4 && StartsWith(name, number + "-") && EndsWithMd(name)
  }

  /** The number create_adr returns names the file it wrote: get_adr on it lists that file. */
  lemma CreatedFileIsListed(n: nat, slug: string)
    requires n >= 1
    ensures var s := FormatZeroPadded(n, 4);
      ZFill(s, 4) == s && GlobFor(ZFill(s, 4), AdrFileName(s, slug))
  {
    var s := FormatZeroPadded(n, 4);
    NumberStrSpec(n);
    var name := AdrFileName(s, slug);
    assert name[..|s| + 1] == s + "-";
    assert name[|name| - 3..] == ".md";
  }

  /** A new name is never one of the existing names when the slug is not empty and the number
      still has four digits: only those two cases escape ADR_PATTERN. */
  lemma FreshUnlessEmptyOrWide(names: set<string>, slug: string)
    requires slug != [] && '\n' !in slug && NextNumber(names, NumberOf) <= 9999
    ensures AdrFileName(FormatZeroPadded(NextNumber(names, NumberOf), 4), slug) !in names
  {
    var n := NextNumber(names, NumberOf);
    var s := FormatZeroPadded(n, 4);
    var name := AdrFileName(s, slug);
    NumberStrSpec(n);
    assert name[..4] == s && name[4] == '-';
    assert name[5..|name| - 3] == slug;
    assert name[|name| - 3..] == ".md";
    assert NumberOf(name) == Some(n);
  }

  /** With the corrected pattern a new record never reuses an existing file name: any name the
      next number and a slug spell is read back as that number, which is above every number in use. */
  lemma FixedNameIsFresh(names: set<string>, slug: string)
    requires '\n' !in slug
    ensures AdrFileName(FormatZeroPadded(NextNumber(names, NumberOfFixed), 4), slug) !in names
  {
    var n := NextNumber(names, NumberOfFixed);
    var s := FormatZeroPadded(n, 4);
    var name := AdrFileName(s, slug);
    NumberStrSpec(n);
    assert name[..|s|] == s;
    assert name[|s|] == '-';
    assert DigitRun(name) == |s| by {
      DigitRunOfPrefix(s, name);
    }
    assert name[|s| + 1..|name| - 3] == slug;
    assert name[|name| - 3..] == ".md";
    assert NumberOfFixed(name) == Some(n);
  }

  /** The digit run of a name that starts with a digit string followed by a non-digit. */
  lemma {:induction false} DigitRunOfPrefix(s: string, name: string)
    requires AllDigits(s) && |s| < |name| && name[..|s|] == s && !IsDigit(name[|s|])
    ensures DigitRun(name) == |s|
    decreases |s|
  {
    if s != [] {
      assert name[1..][..|s| - 1] == s[1..];
      DigitRunOfPrefix(s[1..], name[1..]);
    }
  }

  // ---------------------------------------------------------------------------
  // Slugs

  predicate IsSep(c: char) { c == '-' || IsPySpace(c) }

  predicate IsDash(c: char) { c == '-' }

  /** No two adjacent '-'. */
  predicate NoDoubleDash(s: string) {
    forall i | 0 <= i < |s| - 1 :: !(s[i] == '-' && s[i + 1] == '-')
  }

  /** `re.sub(r'[^\w\s-]', '', s)`: keep word characters, whitespace and '-'; `isWord` is the
      regex class \w. */
  function KeepSlugChars(s: string, isWord: char -> bool): (r: string)
    ensures forall c | c in r :: c in s && (isWord(c) || IsSep(c))
  {
    if s == [] then []
    else
      var rest := KeepSlugChars(s[1..], isWord);
      assert forall c | c in rest :: c in s;
      if isWord(s[0]) || IsSep(s[0]) then [s[0]] + rest else rest
  }

  /** `re.sub(r'[-\s]+', '-', s)`: every maximal run of '-' and whitespace becomes one '-';
      `inRun` says that the character before `s` ended such a run. */
  function Collapse(s: string, inRun: bool): (r: string)
    ensures forall c | c in r :: c == '-' || (c in s && !IsSep(c))
    ensures NoDoubleDash(r)
    ensures inRun && r != [] ==> r[0] != '-'
    decreases |s|
  {
    if s == [] then []
    else if IsSep(s[0]) then
      var rest := Collapse(s[1..], true);
      assert forall c | c in rest :: c in s || c == '-';
      if inRun then rest else "-" + rest
    else
      var rest := Collapse(s[1..], false);
      assert forall c | c in rest :: c in s || c == '-';
      [s[0]] + rest
  }

  /** _slugify: lower-case the title (`lower` is str.lower), drop the characters that are neither
      word characters nor whitespace nor '-', collapse the runs of separators into one '-', strip
      '-' from both ends and keep the first 50 characters. */
  function Slugify(text: string, lower: string -> string, isWord: char -> bool): (slug: string)
    ensures |slug| <= 50
  {
    var stripped := Strip(Collapse(KeepSlugChars(lower(text), isWord), false), IsDash);
    if |stripped| <= 50 then stripped else stripped[..50]
  }

  /** A slug holds only word characters of the lower-cased title and '-', no whitespace, no "--",
      does not start with '-', and has at most 50 characters (it may end with '-' when the cut
      at 50 falls after one). */
  lemma SlugifySpec(text: string, lower: string -> string, isWord: char -> bool)
    ensures var slug := Slugify(text, lower, isWord);
      && |slug| <= 50
      && (forall c | c in slug :: c == '-' || (c in lower(text) && isWord(c) && !IsPySpace(c)))
      && NoDoubleDash(slug)
      && (slug == [] || slug[0] != '-')
  {
    var kept := KeepSlugChars(lower(text), isWord);
    var collapsed := Collapse(kept, false);
    var stripped := Strip(collapsed, IsDash);
    StripSpec(collapsed, IsDash);
    var i := |collapsed| - |StripLeft(collapsed, IsDash)|;
    assert stripped == collapsed[i..i + |stripped|];
    assert forall c | c in stripped :: c in collapsed;
    assert NoDoubleDash(stripped) by {
      forall j | 0 <= j < |stripped| - 1 ensures !(stripped[j] == '-' && stripped[j + 1] == '-') {
        assert stripped[j] == collapsed[i + j] && stripped[j + 1] == collapsed[i + j + 1];
      }
    }
    var slug := Slugify(text, lower, isWord);
    assert slug == stripped[..|slug|];
    assert forall c | c in slug :: c in stripped;
  }

  /** With ASCII lower-casing, a slug has no upper-case ASCII letter. */
  lemma SlugifyLowercase(text: string, isWord: char -> bool)
    ensures forall c | c in Slugify(text, Lower, isWord) :: !('A' <= c <= 'Z')
  {
    SlugifySpec(text, Lower, isWord);
    LowerHasNoUpper(text);
  }

  lemma LowerHasNoUpper(text: string)
    ensures forall c | c in Lower(text) :: !('A' <= c <= 'Z')
  {
    var low := Lower(text);
    forall c | c in low ensures !('A' <= c <= 'Z') {
      var i :| 0 <= i < |low| && low[i] == c;
      assert c == LowerChar(text[i]);
    }
  }

  /** A slug never contains a newline (whitespace turns into '-'). */
  lemma SlugHasNoNewline(text: string, lower: string -> string, isWord: char -> bool)
    ensures '\n' !in Slugify(text, lower, isWord)
  {
    SlugifySpec(text, lower, isWord);
    assert IsPySpace('\n');
  }

  /** A title made only of symbols has the empty slug, so create_adr writes "NNNN-.md", which
      ADR_PATTERN does not read: the next record gets the same number again, and one with such a
      title as well is written over the first. */
  lemma EmptySlugNumberReused(content: string, lower: string -> string, isWord: char -> bool)
    requires lower("???") == "???" && !isWord('?')
    ensures Slugify("???", lower, isWord) == ""
    ensures var name := AdrFileName(FormatZeroPadded(1, 4), Slugify("???", lower, isWord));
      && name == "0001-.md"
      && NextNumber(map[name := content].Keys, NumberOf) == 1
  {
    assert KeepSlugChars("???", isWord) == "";
    var name := AdrFileName(FormatZeroPadded(1, 4), "");
    assert FormatZeroPadded(1, 4) == "0001";
    assert name == "0001-.md";
    assert NumberOf(name) == None;
    MaxNumberUnique(map[name := content].Keys, NumberOf, 0);
  }

  /** Past 9999 the number has five digits and ADR_PATTERN no longer reads it: with records 9999
      and 10000 on disk the next number is 10000 again, and a title with slug "b" is written over
      record 10000. */
  lemma FiveDigitNumberReused()
    ensures var names := {"9999-a.md", "10000-b.md"};
      && NextNumber(names, NumberOf) == 10000
      && AdrFileName(FormatZeroPadded(10000, 4), "b") in names
  {
    var names := {"9999-a.md", "10000-b.md"};
    SampleNumbers();
    MaxNumberUnique(names, NumberOf, 9999);
    Render10000();
  }

  lemma SampleNumbers()
    ensures NumberOf("9999-a.md") == Some(9999) && NumberOf("10000-b.md") == None
  {
    assert "9999"[..3] == "999" && "999"[..2] == "99" && "99"[..1] == "9" && "9"[..0] == "";
    assert DigitsValue("9") == 9 && DigitsValue("99") == 99 && DigitsValue("999") == 999;
    assert DigitsValue("9999") == 9999;
    assert "9999-a.md"[..4] == "9999";
    assert "10000-b.md"[4] == '0';
  }

  lemma Render10000()
    ensures FormatZeroPadded(10000, 4) == "10000"
    ensures AdrFileName("10000", "b") == "10000-b.md"
  {
    assert NatToString(1) == "1";
    assert NatToString(10) == "10";
    assert NatToString(100) == "100";
    assert NatToString(1000) == "1000";
    assert NatToString(10000) == "10000";
  }

  // ---------------------------------------------------------------------------
  // Record content

  const Placeholder := "- なし"

  /** The template _ensure_template writes when the directory has none. */
  const Template := "# ADR-{number}: {title}\n\n## ステータス\nProposed / Accepted / Deprecated / Superseded\n\n"
    + "## コンテキスト\n[決定の背景となる状況や問題を記述してください]\n\n## 決定\n[採用した決定の内容を記述してください]\n\n"
    + "## 理由\n[決定の理由を記述してください]\n\n## 結果\n[決定による影響・結果を記述してください]\n\n"
    + "## 関連Intent\n- [関連するタスクIDをリストしてください]\n"

  /** `s if s else default`. */
  function OrDefault(s: string, default: string): string {
    if s != "" then s else default
  }

  function Bullets(ids: seq<string>): (r: seq<string>)
    ensures |r| == |ids| && forall i | 0 <= i < |ids| :: r[i] == "- " + ids[i]
  {
    if ids == [] then [] else ["- " + ids[0]] + Bullets(ids[1..])
  }

  /** The related-intent lines create_adr writes: one bullet per task id, or the placeholder. */
  function IntentsText(ids: seq<string>): string {
    if ids != [] then Join(Bullets(ids), "\n") else Placeholder
  }

  /** The related-intent text reads back, line by line, as one "- <id>" per task id, in order,
      when no id holds a newline; with no ids it is the single placeholder line. */
  lemma IntentsTextLines(ids: seq<string>)
    requires forall i | 0 <= i < |ids| :: '\n' !in ids[i]
    ensures ids == [] ==> Split(IntentsText(ids), '\n') == [Placeholder]
    ensures ids != [] ==> Split(IntentsText(ids), '\n') == Bullets(ids)
  {
    if ids == [] {
      SplitNoSep(Placeholder, '\n');
    } else {
      var bs := Bullets(ids);
      forall i | 0 <= i < |bs| ensures '\n' !in bs[i] {
        assert bs[i] == "- " + ids[i];
      }
      SplitJoin(bs);
    }
  }

  lemma {:induction false} SplitNoSep(s: string, sep: char)
    requires sep !in s
    ensures Split(s, sep) == [s]
    decreases |s|
  {
    if s != [] {
      SplitNoSep(s[1..], sep);
      assert [s[0]] + s[1..] == s;
    }
  }

  /** Splitting lines joined with "\n" gives the lines back when none holds a newline. */
  lemma {:induction false} SplitJoin(lines: seq<string>)
    requires lines != [] && forall i | 0 <= i < |lines| :: '\n' !in lines[i]
    ensures Split(Join(lines, "\n"), '\n') == lines
    decreases |lines|
  {
    if |lines| == 1 {
      SplitNoSep(lines[0], '\n');
    } else {
      assert '\n' !in lines[0];
      SplitJoin(lines[1..]);
      assert Join(lines, "\n") == lines[0] + ['\n'] + Join(lines[1..], "\n");
      SplitAtFirst(lines[0], Join(lines[1..], "\n"), '\n');
      assert [lines[0]] + lines[1..] == lines;
    }
  }

  /** The first line of a record: its number and title. */
  function AdrHeading(numberStr: string, title: string): string {
    "# ADR-" + numberStr + ": " + title + "\n"
  }

  /** The status, context, decision, rationale and consequences sections of a new record, an
      empty one filled with its bracketed hint. */
  function AdrBody(status: string, context: string, decision: string, rationale: string,
                   consequences: string): string
  {
    "\n## ステータス\n" + status
    + "\n\n## コンテキスト\n" + OrDefault(context, "[決定の背景となる状況や問題]")
    + "\n\n## 決定\n" + OrDefault(decision, "[採用した決定の内容]")
    + "\n\n## 理由\n" + OrDefault(rationale, "[決定の理由]")
    + "\n\n## 結果\n" + OrDefault(consequences, "[決定による影響・結果]")
    + "\n\n"
  }

  /** The last section of a new record. */
  function IntentsSection(ids: seq<string>): string {
    "## 関連Intent\n" + IntentsText(ids) + "\n"
  }

  /** The record create_adr writes. */
  function AdrContent(numberStr: string, title: string, status: string, context: string,
                      decision: string, rationale: string, consequences: string,
                      relatedIntents: seq<string>): string
  {
    AdrHeading(numberStr, title) + AdrBody(status, context, decision, rationale, consequences)
    + IntentsSection(relatedIntents)
  }

  /** A new record starts with its heading line and ends with its related-intent section,
      which holds the placeholder when there are no related intents. */
  lemma AdrContentShape(numberStr: string, title: string, status: string, context: string,
                        decision: string, rationale: string, consequences: string, ids: seq<string>)
    ensures var c := AdrContent(numberStr, title, status, context, decision, rationale, consequences, ids);
      var head := "# ADR-" + numberStr + ": " + title + "\n";
      var tail := "## 関連Intent\n" + IntentsText(ids) + "\n";
      && StartsWith(c, head)
      && |tail| <= |c| && c[|c| - |tail|..] == tail
      && (ids == [] ==> tail == "## 関連Intent\n- なし\n")
  {
    var head := AdrHeading(numberStr, title);
    var body := AdrBody(status, context, decision, rationale, consequences);
    var tail := IntentsSection(ids);
    var c := head + body + tail;
    assert c[..|head|] == head;
    assert c[|c| - |tail|..] == tail;
  }

  // ---------------------------------------------------------------------------
  // Reading a record

  /** The regular expressions get_adr parses a record with, as functions of the file content:
      `title` is group 1 of `^# ADR-\d+: (.+)$`; `section(c, h)` the span of the body of the
      section headed "## h" (the lazy group before the next "\n##" or the end); `bullets` the
      items `^[-*]\s+(.+)$` finds in a section body. */
  datatype AdrSyntax = AdrSyntax(
    title: string -> Option<string>,
    section: (string, string) -> Option<(nat, nat)>,
    headingStart: (string, string) -> nat,
    bullets: string -> seq<string>)

  /** A section span lies inside the content, after the start of its heading. */
  ghost predicate ValidSyntax(syn: AdrSyntax) {
    forall c, h | syn.section(c, h).Some? ::
      syn.headingStart(c, h) <= syn.section(c, h).value.0 <= syn.section(c, h).value.1 <= |c|
  }

  function SectionText(content: string, heading: string, syn: AdrSyntax): Option<string>
    requires ValidSyntax(syn)
  {
    match syn.section(content, heading)
    case None => None
    case Some(span) => Some(content[span.0..span.1])
  }

  /** `[i.strip() for i in items if i.strip() != "なし"]`. */
  function KeepIntents(items: seq<string>): (r: seq<string>)
    ensures forall x | x in r :: x != "なし"
  {
    if items == [] then []
    else
      var x := Strip(items[0], IsPySpace);
      if x != "なし" then [x] + KeepIntents(items[1..]) else KeepIntents(items[1..])
  }

  /** The parsed related intents are exactly the stripped items that are not the placeholder word. */
  lemma {:induction false} KeepIntentsMembers(items: seq<string>, x: string)
    ensures x in KeepIntents(items) <==>
      x != "なし" && exists i | 0 <= i < |items| :: Strip(items[i], IsPySpace) == x
    decreases |items|
  {
    if items != [] {
      KeepIntentsMembers(items[1..], x);
      if exists i | 0 <= i < |items| :: Strip(items[i], IsPySpace) == x {
        var i :| 0 <= i < |items| && Strip(items[i], IsPySpace) == x;
        if i > 0 { assert items[1..][i - 1] == items[i]; }
      }
      if exists i | 0 <= i < |items[1..]| :: Strip(items[1..][i], IsPySpace) == x {
        var i :| 0 <= i < |items[1..]| && Strip(items[1..][i], IsPySpace) == x;
        assert items[i + 1] == items[1..][i];
      }
    }
  }

  /** The dict get_adr returns; `filepath` is the file name within the ADR directory. */
  datatype AdrRecord = AdrRecord(
    number: string, title: string, status: string, context: string, decision: string,
    rationale: string, consequences: string, relatedIntents: seq<string>,
    filepath: string, content: string)

  /** The stripped body of a section, or `missing` when the section is absent. */
  function SectionOr(content: string, heading: string, syn: AdrSyntax, missing: string): string
    requires ValidSyntax(syn)
  {
    match SectionText(content, heading, syn)
    case None => missing
    case Some(text) => Strip(text, IsPySpace)
  }

  function ParseAdr(number: string, name: string, content: string, syn: AdrSyntax): (r: AdrRecord)
    requires ValidSyntax(syn)
    ensures forall x | x in r.relatedIntents :: x != "なし"
  {
    AdrRecord(
      number,
      match syn.title(content) case Some(t) => t case None => "Unknown",
      match SectionText(content, "ステータス", syn)
        case Some(text) => Split(Strip(text, IsPySpace), '\n')[0]
        case None => "Unknown",
      SectionOr(content, "コンテキスト", syn, ""),
      SectionOr(content, "決定", syn, ""),
      SectionOr(content, "理由", syn, ""),
      SectionOr(content, "結果", syn, ""),
      match SectionText(content, "関連Intent", syn)
        case Some(text) => KeepIntents(syn.bullets(text))
        case None => [],
      name,
      content)
  }

  /** `name` is the first name in `listing` that is a file and matches. */
  ghost predicate FirstListed(files: map<string, string>, listing: seq<string>, matches: string -> bool, name: string) {
    exists i | 0 <= i < |listing| :: listing[i] == name && forall j | 0 <= j < i :: !(listing[j] in files && matches(listing[j]))
  }

  /** The first name, in the order the directory lists them, that `matches`. */
  function FirstMatch(files: map<string, string>, listing: seq<string>, matches: string -> bool): (r: Option<string>)
    ensures r.Some? ==> r.value in files && matches(r.value) && FirstListed(files, listing, matches, r.value)
    ensures r.None? <==> forall i | 0 <= i < |listing| :: !(listing[i] in files && matches(listing[i]))
  {
    if listing == [] then None
    else if listing[0] in files && matches(listing[0]) then
      Some(listing[0])
    else
      var r := FirstMatch(files, listing[1..], matches);
      assert forall i | 1 <= i < |listing| :: listing[i] == listing[1..][i - 1];
      if r.Some? then
        var i :| 0 <= i < |listing[1..]| && listing[1..][i] == r.value
                 && forall j | 0 <= j < i :: !(listing[1..][j] in files && matches(listing[1..][j]));
        assert listing[i + 1] == r.value;
        assert forall j | 0 <= j < i + 1 :: !(listing[j] in files && matches(listing[j]));
        r
      else r
  }

  /** get_adr: the number is zero-filled to four characters and the first file the glob
      f"{number}-*.md" lists is parsed; `listing` is the order the directory lists its files in. */
  function GetAdr(files: map<string, string>, listing: seq<string>, syn: AdrSyntax, number: string): (r: Option<AdrRecord>)
    requires ValidSyntax(syn)
    ensures r.Some? ==>
      && r.value.number == ZFill(number, 4)
      && r.value.filepath in files && r.value.content == files[r.value.filepath]
      && GlobFor(ZFill(number, 4), r.value.filepath)
      && FirstListed(files, listing, name => GlobFor(ZFill(number, 4), name), r.value.filepath)
      && r.value == ParseAdr(ZFill(number, 4), r.value.filepath, files[r.value.filepath], syn)
      && (forall x | x in r.value.relatedIntents :: x != "なし")
    ensures r.None? <==> forall i | 0 <= i < |listing| :: !(listing[i] in files && GlobFor(ZFill(number, 4), listing[i]))
  {
    var z := ZFill(number, 4);
    match FirstMatch(files, listing, name => GlobFor(z, name))
    case None => None
    case Some(name) => Some(ParseAdr(z, name, files[name], syn))
  }

  /** Numbers written with or without leading zeros find the same record: "1", "01" and "0001"
      all look up 0001. */
  lemma GetAdrNormalises(files: map<string, string>, listing: seq<string>, syn: AdrSyntax, a: string, b: string)
    requires ValidSyntax(syn)
    requires AllDigits(a) && AllDigits(b) && |a| <= 4 && |b| <= 4 && DigitsValue(a) == DigitsValue(b)
    ensures GetAdr(files, listing, syn, a) == GetAdr(files, listing, syn, b)
  {
    ZFillDigitsIsFormat(a, 4);
    ZFillDigitsIsFormat(b, 4);
  }

  // ---------------------------------------------------------------------------
  // Editing a record

  /** add_related_intent's new content: inside the related-intent section (span a..b), the
      placeholder becomes the new bullet, any other stripped body gets the bullet on a line of
      its own; without the section, the right-stripped content gets a new section. */
  function Spliced(content: string, span: Option<(nat, nat)>, taskId: string): string
    requires span.Some? ==> span.value.0 <= span.value.1 <= |content|
  {
    match span
    case Some(sp) =>
      var existing := Strip(content[sp.0..sp.1], IsPySpace);
      content[..sp.0] + (if existing == Placeholder then "- " + taskId else existing + "\n- " + taskId) + content[sp.1..]
    case None => StripRight(content, IsPySpace) + "\n\n## 関連Intent\n- " + taskId + "\n"
  }

  /** The splice keeps everything outside the section, ends the section with the new bullet, keeps
      the existing items before it, and drops the placeholder; a missing section is appended. */
  lemma SplicedSpec(content: string, span: Option<(nat, nat)>, taskId: string)
    requires span.Some? ==> span.value.0 <= span.value.1 <= |content|
    ensures span.Some? ==>
      var (a, b) := span.value;
      var r := Spliced(content, span, taskId);
      var existing := Strip(content[a..b], IsPySpace);
      var bullet := "- " + taskId;
      && |r| >= a + |content| - b
      && r[..a] == content[..a]
      && r[|r| - (|content| - b)..] == content[b..]
      && var body := r[a..|r| - (|content| - b)];
      && |bullet| <= |body| && body[|body| - |bullet|..] == bullet
      && (existing == Placeholder <==> body == bullet)
      && (existing != Placeholder ==> StartsWith(body, existing + "\n"))
    ensures span.None? ==>
      var r := Spliced(content, span, taskId);
      var section := "\n\n## 関連Intent\n- " + taskId + "\n";
      && StartsWith(r, StripRight(content, IsPySpace))
      && |section| <= |r| && r[|r| - |section|..] == section
  {
    var bullet := "- " + taskId;
    if span.Some? {
      var (a, b) := span.value;
      var r := Spliced(content, span, taskId);
      var existing := Strip(content[a..b], IsPySpace);
      var body := if existing == Placeholder then bullet else existing + "\n" + bullet;
      assert r == content[..a] + body + content[b..];
      assert r[..a] == content[..a];
      assert r[a..|r| - (|content| - b)] == body;
      assert r[|r| - (|content| - b)..] == content[b..];
      assert body[|body| - |bullet|..] == bullet;
      if existing != Placeholder {
        assert body[..|existing| + 1] == existing + "\n";
        assert |body| > |bullet|;
      }
    } else {
      var r := Spliced(content, span, taskId);
      var section := "\n\n## 関連Intent\n- " + taskId + "\n";
      assert r == StripRight(content, IsPySpace) + section;
      assert r[..|StripRight(content, IsPySpace)|] == StripRight(content, IsPySpace);
      assert r[|r| - |section|..] == section;
    }
  }

  // ---------------------------------------------------------------------------
  // Replacement templates of re.sub

  /** A compiled replacement template: literal characters and group references. */
  datatype TemplatePiece = Lit(c: char) | Group(index: nat)

  /** The escapes a template turns into one character: \a \b \f \n \r \t \v and \\. */
  function SimpleEscape(c: char): Option<char> {
    if c == 'a' then Some(7 as char)
    else if c == 'b' then Some(8 as char)
    else if c == 'f' then Some(12 as char)
    else if c == 'n' then Some('\n')
    else if c == 'r' then Some('\r')
    else if c == 't' then Some('\t')
    else if c == 'v' then Some(11 as char)
    else if c == '\\' then Some('\\')
    else None
  }

  predicate IsAsciiLetter(c: char) { 'a' <= c <= 'z' || 'A' <= c <= 'Z' }

  predicate IsOctal(c: char) { '0' <= c <= '7' }

  /** str.isidentifier(), with every non-ASCII character taken as a letter. */
  predicate IsIdentifier(name: string) {
    && name != []
    && (IsAsciiLetter(name[0]) || name[0] == '_' || name[0] > 127 as char)
    && forall i | 0 <= i < |name| :: IsAsciiLetter(name[i]) || IsDigit(name[i]) || name[i] == '_' || name[i] > 127 as char
  }

  /** The first position of `c` in `s`. */
  function IndexOfChar(s: string, c: char): (r: Option<nat>)
    ensures r.Some? ==> r.value < |s| && s[r.value] == c && forall i | 0 <= i < r.value :: s[i] != c
    ensures r.None? ==> forall i | 0 <= i < |s| :: s[i] != c
  {
    if s == [] then None
    else if s[0] == c then Some(0)
    else match IndexOfChar(s[1..], c)
      case None => None
      case Some(k) => Some(k + 1)
  }

  function Prepend(ps: seq<TemplatePiece>, r: Result<seq<TemplatePiece>>): Result<seq<TemplatePiece>> {
    if r.Err? then r else Ok(ps + r.value)
  }

  /** A reference to group `index` of a pattern with `groups` groups; a larger index raises. */
  function GroupRef(index: nat, groups: nat, rest: Result<seq<TemplatePiece>>): Result<seq<TemplatePiece>> {
    if index > groups then Err(ReError("invalid group reference")) else Prepend([Group(index)], rest)
  }

  /** The template compiler of Python's re module, for a pattern with `groups` groups and no named
      group: \g<n> and \n or \nn are group references, \0 and three-digit octal escapes are
      characters, the simple escapes are characters, an escaped ASCII letter is an error, and any
      other escaped character is kept with its backslash. */
  function ParseTemplate(t: string, groups: nat): (r: Result<seq<TemplatePiece>>)
    ensures r.Ok? ==> forall p | p in r.value :: p.Group? ==> p.index <= groups
    decreases |t|
  {
    if t == [] then Ok([])
    else if t[0] != '\\' then Prepend([Lit(t[0])], ParseTemplate(t[1..], groups))
    else if |t| == 1 then Err(ReError("bad escape (end of pattern)"))
    else
      var c := t[1];
      if c == 'g' then
        if |t| == 2 || t[2] != '<' then Err(ReError("missing <"))
        else
          match IndexOfChar(t[3..], '>')
          case None => Err(ReError("missing >, unterminated name"))
          case Some(k) =>
            var name := t[3..3 + k];
            if name == [] then Err(ReError("missing group name"))
            else if IsIdentifier(name) then Err(IndexError("unknown group name"))
            else if !AllDigits(name) then Err(ReError("bad character in group name"))
            else GroupRef(DigitsValue(name), groups, ParseTemplate(t[4 + k..], groups))
      else if c == '0' then
        var n := if |t| > 2 && IsOctal(t[2]) then (if |t| > 3 && IsOctal(t[3]) then 2 else 1) else 0;
        Prepend([Lit(OctalValue(t[2..2 + n]) as char)], ParseTemplate(t[2 + n..], groups))
      else if IsDigit(c) then
        if |t| > 2 && IsDigit(t[2]) then
          if IsOctal(c) && IsOctal(t[2]) && |t| > 3 && IsOctal(t[3]) then
            var v := OctalValue(t[1..4]);
            if v > 255 then Err(ReError("octal escape value outside of range 0-0o377"))
            else Prepend([Lit(v as char)], ParseTemplate(t[4..], groups))
          else GroupRef(DigitsValue(t[1..3]), groups, ParseTemplate(t[3..], groups))
        else GroupRef(DigitsValue(t[1..2]), groups, ParseTemplate(t[2..], groups))
      else
        match SimpleEscape(c)
        case Some(x) => Prepend([Lit(x)], ParseTemplate(t[2..], groups))
        case None =>
          if IsAsciiLetter(c) then Err(ReError("bad escape"))
          else Prepend([Lit('\\'), Lit(c)], ParseTemplate(t[2..], groups))
  }

  /** The value of a string of octal digits. */
  function OctalValue(s: string): (v: nat)
    ensures |s| == 0 ==> v == 0
    ensures |s| <= 1 ==> v < 8
    ensures |s| <= 2 ==> v < 64
    ensures |s| <= 3 ==> v < 512
  {
    if s == [] then 0
    else OctalValue(s[..|s| - 1]) * 8 + (if IsOctal(s[|s| - 1]) then (s[|s| - 1] as int - '0' as int) else 0)
  }

  /** The text a compiled template gives for one match, whose groups are `g` (group 0 is the
      whole match). */
  function Substitute(ps: seq<TemplatePiece>, g: seq<string>): string
    requires forall p | p in ps :: p.Group? ==> p.index < |g|
  {
    if ps == [] then []
    else (match ps[0] case Lit(c) => [c] case Group(i) => g[i]) + Substitute(ps[1..], g)
  }

  /** Expanding a template for a match with groups `g`; the template is compiled first, so its
      errors are raised whatever the match. */
  function Expand(t: string, g: seq<string>): Result<string>
    requires |g| >= 1
  {
    match ParseTemplate(t, |g| - 1)
    case Err(e) => Err(e)
    case Ok(ps) => Ok(Substitute(ps, g))
  }

  /** A template without a backslash is copied as it is. */
  lemma {:induction false} PlainTemplate(t: string, g: seq<string>)
    requires |g| >= 1 && forall i | 0 <= i < |t| :: t[i] != '\\'
    ensures Expand(t, g) == Ok(t)
    decreases |t|
  {
    if t != [] {
      PlainTemplate(t[1..], g);
      var ps := ParseTemplate(t[1..], |g| - 1).value;
      assert ParseTemplate(t, |g| - 1) == Ok([Lit(t[0])] + ps);
      assert ([Lit(t[0])] + ps)[1..] == ps;
      assert t == [t[0]] + t[1..];
    }
  }

  /** Every backslash doubled: what a caller must pass for a status to be written as it is. */
  function EscapeBackslashes(s: string): (r: string)
    ensures |r| >= |s|
  {
    if s == [] then [] else (if s[0] == '\\' then "\\\\" else [s[0]]) + EscapeBackslashes(s[1..])
  }

  /** A template with its backslashes doubled expands to the text itself: the status the caller
      meant is written exactly when its backslashes were doubled. */
  lemma {:induction false} EscapedTemplate(s: string, g: seq<string>)
    requires |g| >= 1
    ensures Expand(EscapeBackslashes(s), g) == Ok(s)
    decreases |s|
  {
    if s != [] {
      EscapedTemplate(s[1..], g);
      var e := EscapeBackslashes(s);
      var rest := EscapeBackslashes(s[1..]);
      var ps := ParseTemplate(rest, |g| - 1).value;
      if s[0] == '\\' {
        assert e == "\\\\" + rest && e[2..] == rest;
        assert ParseTemplate(e, |g| - 1) == Ok([Lit('\\')] + ps);
      } else {
        assert e == [s[0]] + rest && e[1..] == rest;
        assert ParseTemplate(e, |g| - 1) == Ok([Lit(s[0])] + ps);
      }
      assert s == [s[0]] + s[1..];
    }
  }

  /** The template update_adr_status passes, "\g<1>" + new_status, keeps the heading (group 1)
      and expands the new status after it. */
  lemma HeadingTemplate(status: string, g: seq<string>)
    requires |g| == 3
    ensures Expand("\\g<1>" + status, g)
         == match Expand(status, g) case Err(e) => Err(e) case Ok(x) => Ok(g[1] + x)
  {
    var t := "\\g<1>" + status;
    assert t[0] == '\\' && t[1] == 'g' && t[2] == '<' && t[3] == '1' && t[4] == '>';
    assert t[3..][0] == '1' && t[3..][1] == '>';
    assert IndexOfChar(t[3..], '>') == Some(1);
    assert t[3..4] == "1" && !IsIdentifier("1") && AllDigits("1") && DigitsValue("1") == 1;
    assert t[5..] == status;
    match ParseTemplate(status, 2)
    case Err(e) =>
    case Ok(ps) =>
      assert ParseTemplate(t, 2) == Ok([Group(1)] + ps);
      assert ([Group(1)] + ps)[1..] == ps;
  }

  /** A "\\n" in a new status writes a line break. */
  lemma NewlineEscape(g: seq<string>)
    requires |g| == 3
    ensures Expand("a\\nb", g) == Ok("a\nb")
  {
    assert "b"[1..] == [] && ParseTemplate([], 2) == Ok([]);
    assert [Lit('b')] + [] == [Lit('b')];
    assert ParseTemplate("b", 2) == Ok([Lit('b')]);
    assert "a\\nb"[1..] == "\\nb" && "\\nb"[2..] == "b";
    assert [Lit('\n')] + [Lit('b')] == [Lit('\n'), Lit('b')];
    assert ParseTemplate("\\nb", 2) == Ok([Lit('\n'), Lit('b')]);
    assert [Lit('a')] + [Lit('\n'), Lit('b')] == [Lit('a'), Lit('\n'), Lit('b')];
    assert ParseTemplate("a\\nb", 2) == Ok([Lit('a'), Lit('\n'), Lit('b')]);
    assert [Lit('a'), Lit('\n'), Lit('b')][1..] == [Lit('\n'), Lit('b')] && [Lit('\n'), Lit('b')][1..] == [Lit('b')];
    assert Substitute([Lit('b')], g) == "b";
    assert Substitute([Lit('\n'), Lit('b')], g) == "\nb";
    assert Substitute([Lit('a'), Lit('\n'), Lit('b')], g) == "a\nb";
    assert ParseTemplate("a\\nb", |g| - 1) == Ok([Lit('a'), Lit('\n'), Lit('b')]);
  }

  /** A "\\2" in a new status writes the old status (group 2) again. */
  lemma OldStatusEscape(g: seq<string>)
    requires |g| == 3
    ensures Expand("\\2", g) == Ok(g[2])
  {
    assert "\\2"[1..2] == "2" && DigitsValue("2") == 2 && "\\2"[2..] == [];
    assert [Group(2)] + [] == [Group(2)];
    assert ParseTemplate("\\2", 2) == Ok([Group(2)]);
    assert Substitute([Group(2)], g) == g[2] + Substitute([], g) == g[2] + [] == g[2];
    assert ParseTemplate("\\2", |g| - 1) == Ok([Group(2)]);
  }

  /** A "\\3" names a group the status pattern does not have. */
  lemma MissingGroupEscape(g: seq<string>)
    requires |g| == 3
    ensures Expand("\\3", g) == Err(ReError("invalid group reference"))
  {
    assert "\\3"[1..2] == "3" && DigitsValue("3") == 3;
  }

  /** A Windows path such as "C:\\docs" is a bad escape. */
  lemma BadEscape(g: seq<string>)
    requires |g| == 3
    ensures Expand("C:\\docs", g) == Err(ReError("bad escape"))
  {
    assert "C:\\docs"[1..] == ":\\docs" && ":\\docs"[1..] == "\\docs" && "\\docs"[1] == 'd';
    assert ParseTemplate("\\docs", 2) == Err(ReError("bad escape"));
  }

  /** update_adr_status's new content. The template "\g<1>" + status is compiled first, so a bad
      escape in the status raises whether or not there is a status section; otherwise the match
      (heading start h, section body a..b) is replaced by the heading followed by the expanded
      status, and a file without a status section is left as it is. */
  function WithStatus(content: string, h: nat, span: Option<(nat, nat)>, status: string): (r: Result<string>)
    requires span.Some? ==> h <= span.value.0 <= span.value.1 <= |content|
  {
    var g := if span.Some? then [content[h..span.value.1], content[h..span.value.0], content[span.value.0..span.value.1]]
             else ["", "", ""];
    match Expand("\\g<1>" + status, g)
    case Err(e) => Err(e)
    case Ok(replacement) =>
      match span
      case None => Ok(content)
      case Some(sp) => Ok(content[..h] + replacement + content[sp.1..])
  }

  /** The heading kept in front of the new text leaves the file up to the body's start as it was. */
  lemma SplicedAt(content: string, h: nat, a: nat, b: nat, x: string)
    requires h <= a <= b <= |content|
    ensures var r := content[..h] + (content[h..a] + x) + content[b..];
      && r == content[..a] + x + content[b..]
      && r[..a] == content[..a]
      && r[a..a + |x|] == x
      && r[a + |x|..] == content[b..]
  {
    assert content[..h] + content[h..a] == content[..a];
    var r := content[..a] + x + content[b..];
    assert content[..h] + (content[h..a] + x) + content[b..] == r;
  }

  /** Setting the status fails exactly when the status is not a valid template; otherwise it keeps
      the rest of the file and the expanded status becomes the body of the status section, so a
      status without a backslash is written as it is. A file without a status section is left as
      it is. */
  lemma WithStatusSpec(content: string, h: nat, span: Option<(nat, nat)>, status: string)
    requires span.Some? ==> h <= span.value.0 <= span.value.1 <= |content|
    ensures WithStatus(content, h, span, status).Err? <==> ParseTemplate(status, 2).Err?
    ensures WithStatus(content, h, span, status).Ok? && span.None? ==> WithStatus(content, h, span, status).value == content
    ensures WithStatus(content, h, span, status).Ok? && span.Some? ==>
      var (a, b) := span.value;
      var r := WithStatus(content, h, span, status).value;
      var x := Expand(status, [content[h..b], content[h..a], content[a..b]]).value;
      && r == content[..a] + x + content[b..]
      && r[..a] == content[..a]
      && r[a..a + |x|] == x
      && r[a + |x|..] == content[b..]
      && ((forall i | 0 <= i < |status| :: status[i] != '\\') ==> x == status)
  {
    var g := if span.Some? then [content[h..span.value.1], content[h..span.value.0], content[span.value.0..span.value.1]]
             else ["", "", ""];
    HeadingTemplate(status, g);
    if span.Some? && ParseTemplate(status, 2).Ok? {
      var (a, b) := span.value;
      var x := Expand(status, g).value;
      assert WithStatus(content, h, span, status).value == content[..h] + (content[h..a] + x) + content[b..];
      SplicedAt(content, h, a, b, x);
      if forall i | 0 <= i < |status| :: status[i] != '\\' {
        PlainTemplate(status, g);
      }
    }
  }


  // ---------------------------------------------------------------------------
  // The manager

  /** The ADR directory as a map from file name to content. */
  class AdrManager {
    var files: map<string, string>

    /** ADRManager(adr_dir): the directory with the template written when it had none. */
    constructor(existing: map<string, string>)
      ensures files == if "template.md" in existing then existing else existing["template.md" := Template]
      ensures "template.md" in files && NumberOf("template.md").None?
    {
      files := if "template.md" in existing then existing else existing["template.md" := Template];
    }

    /** get_next_number, reading each name with `numberOf` (NumberOf is ADR_PATTERN). */
    method GetNextNumber(numberOf: string -> Option<nat>) returns (n: nat)
      ensures n == NextNumber(files.Keys, numberOf)
    {
      var rest := files.Keys;
      var best := 0;
      ghost var seen: set<string> := {};
      while rest != {}
        invariant rest + seen == files.Keys
        invariant forall f | f in seen && numberOf(f).Some? :: numberOf(f).value <= best
        invariant best == 0 || exists f | f in seen && numberOf(f).Some? :: numberOf(f).value == best
        decreases rest
      {
        var f :| f in rest;
        if numberOf(f).Some? && numberOf(f).value > best {
          best := numberOf(f).value;
        }
        rest := rest - {f};
        seen := seen + {f};
      }
      MaxNumberUnique(files.Keys, numberOf, best);
      n := best + 1;
    }

    /** create_adr: writes the record under the next number and the title's slug, and returns the
        number as at least four digits. */
    method CreateAdr(title: string, context: string, decision: string, rationale: string,
                     consequences: string, relatedIntents: seq<string>, status: string,
                     lower: string -> string, isWord: char -> bool, numberOf: string -> Option<nat>)
      returns (numberStr: string)
      modifies this
      ensures var n := NextNumber(old(files).Keys, numberOf);
        && numberStr == FormatZeroPadded(n, 4)
        && files == old(files)[AdrFileName(numberStr, Slugify(title, lower, isWord)) :=
             AdrContent(numberStr, title, status, context, decision, rationale, consequences, relatedIntents)]
    {
      var number := GetNextNumber(numberOf);
      numberStr := FormatZeroPadded(number, 4);
      var slug := Slugify(title, lower, isWord);
      var filename := AdrFileName(numberStr, slug);
      var content := AdrContent(numberStr, title, status, context, decision, rationale, consequences, relatedIntents);
      files := files[filename := content];
    }

    /** update_adr_status: False for an unknown number; the error of re.sub when the new status
        is not a valid template, with nothing written; otherwise the status section's body is
        replaced and the record rewritten. */
    method UpdateAdrStatus(number: string, newStatus: string, listing: seq<string>, syn: AdrSyntax)
      returns (r: Result<bool>)
      requires ValidSyntax(syn)
      modifies this
      ensures old(GetAdr(files, listing, syn, number)).None? ==> r == Ok(false) && files == old(files)
      ensures old(GetAdr(files, listing, syn, number)).Some? ==>
        var adr := old(GetAdr(files, listing, syn, number)).value;
        var w := WithStatus(adr.content, syn.headingStart(adr.content, "ステータス"),
                            syn.section(adr.content, "ステータス"), newStatus);
        && (w.Err? ==> r == Err(w.error) && files == old(files))
        && (w.Ok? ==> r == Ok(true) && files == old(files)[adr.filepath := w.value])
    {
      var adr := GetAdr(files, listing, syn, number);
      if adr.None? {
        return Ok(false);
      }
      var content := adr.value.content;
      var w := WithStatus(content, syn.headingStart(content, "ステータス"), syn.section(content, "ステータス"), newStatus);
      if w.Err? {
        return Err(w.error);
      }
      files := files[adr.value.filepath := w.value];
      r := Ok(true);
    }

    /** add_related_intent: False for an unknown number; True without writing when the task is
        already listed; otherwise the spliced content is written back. */
    method AddRelatedIntent(number: string, taskId: string, listing: seq<string>, syn: AdrSyntax)
      returns (ok: bool)
      requires ValidSyntax(syn)
      modifies this
      ensures ok <==> old(GetAdr(files, listing, syn, number)).Some?
      ensures !ok ==> files == old(files)
      ensures ok && taskId in old(GetAdr(files, listing, syn, number)).value.relatedIntents ==> files == old(files)
      ensures ok && taskId !in old(GetAdr(files, listing, syn, number)).value.relatedIntents ==>
        var adr := old(GetAdr(files, listing, syn, number)).value;
        files == old(files)[adr.filepath := Spliced(adr.content, syn.section(adr.content, "関連Intent"), taskId)]
    {
      var adr := GetAdr(files, listing, syn, number);
      if adr.None? {
        return false;
      }
      if taskId in adr.value.relatedIntents {
        return true;
      }
      var content := adr.value.content;
      files := files[adr.value.filepath := Spliced(content, syn.section(content, "関連Intent"), taskId)];
      ok := true;
    }
  }
}
