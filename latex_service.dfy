/**
 * The protocol pipeline of the LaTeX service: a keyword classifier for section
 * headings, the line-by-line parser that splits generated text into sections,
 * and the assembly step that appends the sections to the document in a fixed
 * order with German labels. The pylatex document is modelled as a sequence of
 * entries; preamble, packages and PDF compilation are not part of this model.
 */
module LatexService {
  import opened Wrappers
  import opened Strings

  // ---------------------------------------------------------------------------
  // Section keys, keywords and labels
  // ---------------------------------------------------------------------------

  /** The key under which the parser stores the document title. */
  const TitleKey: string := "title"

  /** The order in which sections are emitted (also the keyword table's order). */
  const SectionOrder: seq<string> :=
    ["zielsetzung", "theorie", "material", "durchführung",
     "ergebnisse", "berechnungen", "diskussion", "schlussfolgerung"]

  /** The heading keywords of each section, in the classifier's priority order. */
  const SectionKeywords: seq<(string, seq<string>)> :=
    [("zielsetzung", ["ZIELSETZUNG", "ZIEL", "AUFGABE"]),
     ("theorie", ["THEORIE", "THEORETISCH", "HINTERGRUND"]),
     ("material", ["MATERIAL", "GERÄTE", "CHEMIKALIEN"]),
     ("durchführung", ["DURCHFÜHRUNG", "VERSUCH", "METHODE"]),
     ("ergebnisse", ["ERGEBNISSE", "BEOBACHTUNG", "MESSUNG"]),
     ("berechnungen", ["BERECHNUNGEN", "AUSWERTUNG", "RECHNUNG"]),
     ("diskussion", ["DISKUSSION", "BEWERTUNG", "FEHLER"]),
     ("schlussfolgerung", ["SCHLUSS", "FAZIT", "ZUSAMMENFASSUNG"])]

  /** The German label of each section. */
  const SectionTitles: map<string, string> :=
    map["zielsetzung" := "Zielsetzung",
        "theorie" := "Theoretischer Hintergrund",
        "material" := "Materialien und Geräte",
        "durchführung" := "Durchführung",
        "ergebnisse" := "Ergebnisse und Beobachtungen",
        "berechnungen" := "Berechnungen und Auswertung",
        "diskussion" := "Diskussion",
        "schlussfolgerung" := "Schlussfolgerung"]

  /** The keyword table lists the sections in emission order. */
  lemma KeywordTableFollowsOrder()
    ensures |SectionKeywords| == |SectionOrder|
    ensures forall i :: 0 <= i < |SectionOrder| ==> SectionKeywords[i].0 == SectionOrder[i]
  {
  }

  /** No keyword is empty, so no keyword occurs in every line. */
  lemma KeywordsNonEmpty()
    ensures forall i, j :: 0 <= i < |SectionKeywords| && 0 <= j < |SectionKeywords[i].1| ==> SectionKeywords[i].1[j] != ""
  {
  }

  /** The eight section keys differ pairwise. */
  lemma SectionOrderDistinct()
    ensures forall i, j :: 0 <= i < j < |SectionOrder| ==> SectionOrder[i] != SectionOrder[j]
  {
  }

  /** Neither the title key nor the author key names a section. */
  lemma ReservedKeys()
    ensures TitleKey !in SectionOrder
    ensures "author" != TitleKey && "author" !in SectionOrder
  {
  }

  // ---------------------------------------------------------------------------
  // Classifier
  // ---------------------------------------------------------------------------

  /** Some keyword of `entry` is a substring of the upper-cased line `u`. */
  predicate Matches(entry: (string, seq<string>), u: string)
  {
    exists j :: 0 <= j < |entry.1| && Contains(u, entry.1[j])
  }

  /** The inner loop over one section's keywords. */
  function AnyKeyword(keywords: seq<string>, u: string): bool
  {
    if keywords == [] then false
    else Contains(u, keywords[0]) || AnyKeyword(keywords[1..], u)
  }

  lemma {:induction false} AnyKeywordSpec(keywords: seq<string>, u: string)
    ensures AnyKeyword(keywords, u) <==> exists j :: 0 <= j < |keywords| && Contains(u, keywords[j])
  {
    if keywords != [] {
      AnyKeywordSpec(keywords[1..], u);
      assert forall j :: 1 <= j < |keywords| ==> keywords[j] == keywords[1..][j - 1];
    }
  }

  /** The outer loop: the key of the first entry of `table` with a matching keyword. */
  function FirstSection(table: seq<(string, seq<string>)>, u: string): (r: Option<string>)
    ensures r.Some? ==> exists i :: 0 <= i < |table| && table[i].0 == r.value
  {
    if table == [] then None
    else if AnyKeyword(table[0].1, u) then Some(table[0].0)
    else
      var rest := FirstSection(table[1..], u);
      assert rest.Some? ==> exists i :: 1 <= i < |table| && table[i].0 == rest.value
        by { if rest.Some? { var i :| 0 <= i < |table[1..]| && table[1..][i].0 == rest.value; assert table[i + 1].0 == rest.value; } }
      rest
  }

  /** FirstSection is a first-match search over the table. */
  lemma {:induction false} FirstSectionSpec(table: seq<(string, seq<string>)>, u: string)
    ensures FirstSection(table, u).None? <==> forall i :: 0 <= i < |table| ==> !Matches(table[i], u)
    ensures FirstSection(table, u).Some? ==>
              exists i :: 0 <= i < |table| && table[i].0 == FirstSection(table, u).value && Matches(table[i], u)
                          && forall i' :: 0 <= i' < i ==> !Matches(table[i'], u)
  {
    if table != [] {
      AnyKeywordSpec(table[0].1, u);
      FirstSectionSpec(table[1..], u);
      assert forall i :: 1 <= i < |table| ==> table[i] == table[1..][i - 1];
      if !AnyKeyword(table[0].1, u) && FirstSection(table[1..], u).Some? {
        var i :| 0 <= i < |table[1..]| && table[1..][i].0 == FirstSection(table[1..], u).value
                 && Matches(table[1..][i], u) && forall i' :: 0 <= i' < i ==> !Matches(table[1..][i'], u);
        assert forall i' :: 0 <= i' < i + 1 ==> !Matches(table[i'], u);
      }
    }
  }

  /** `_identify_section`: the key of the first section, in table order, with a keyword in the upper-cased line. */
  function IdentifySection(line: string): (r: Option<string>)
    ensures r.Some? ==> r.value in SectionOrder
  {
    KeywordTableFollowsOrder();
    FirstSection(SectionKeywords, Upper(line))
  }

  /**
   * The classifier returns None exactly when no keyword of any section occurs in
   * the upper-cased line; otherwise the first section, in table order, that has
   * a keyword occurring in it.
   */
  lemma IdentifySectionSpec(line: string)
    ensures IdentifySection(line).None? <==>
              forall i, j :: 0 <= i < |SectionKeywords| && 0 <= j < |SectionKeywords[i].1| ==>
                               !Contains(Upper(line), SectionKeywords[i].1[j])
    ensures IdentifySection(line).Some? ==>
              exists i :: 0 <= i < |SectionOrder| && SectionOrder[i] == IdentifySection(line).value
                          && Matches(SectionKeywords[i], Upper(line))
                          && forall i' :: 0 <= i' < i ==> !Matches(SectionKeywords[i'], Upper(line))
  {
    KeywordTableFollowsOrder();
    FirstSectionSpec(SectionKeywords, Upper(line));
  }

  /** `_get_section_title`: the fixed label of a known key, `key.capitalize()` for any other key. */
  function SectionTitle(key: string): (r: string)
    ensures key in SectionTitles ==> r == SectionTitles[key]
    ensures key !in SectionTitles ==> r == Capitalize(key)
  {
    if key in SectionTitles then SectionTitles[key] else Capitalize(key)
  }

  /** The label table covers exactly the emitted sections. */
  lemma SectionTitleLabels()
    ensures SectionTitles.Keys == set k | k in SectionOrder
  {
  }

  /**
   * Every emitted section gets its fixed label, and every key outside the
   * emission order, whatever it is, gets `key.capitalize()`.
   */
  lemma SectionTitleSpec(key: string)
    ensures key in SectionOrder ==> key in SectionTitles && SectionTitle(key) == SectionTitles[key]
    ensures key !in SectionOrder ==> SectionTitle(key) == Capitalize(key)
  {
    SectionTitleLabels();
  }

  /** The labels of the emitted sections differ pairwise. */
  lemma SectionTitlesDistinct()
    ensures forall i, j :: 0 <= i < j < |SectionOrder| ==> SectionTitle(SectionOrder[i]) != SectionTitle(SectionOrder[j])
  {
  }

  /** A key without a fixed label is capitalised: `anhang` is labelled `Anhang`. */
  lemma SectionTitleFallback()
    ensures SectionTitle("anhang") == "Anhang"
  {
    assert "anhang"[1..] == "nhang";
    assert Lower("nhang") == "nhang";
  }

  // ---------------------------------------------------------------------------
  // Title lines
  // ---------------------------------------------------------------------------

  /** A (stripped) line that sets the title: upper-cased, it starts with `TITEL:` or `# `. */
  predicate IsTitleLine(line: string)
  {
    StartsWith(Upper(line), "TITEL:") || StartsWith(Upper(line), "# ")
  }

  /** The title a title line sets: every `TITEL:` (case-sensitively), then every `#`, removed, then stripped. */
  function TitleText(line: string): string
  {
    Strip(RemoveAll(RemoveAll(line, "TITEL:"), "#"))
  }

  /**
   * A title holds no `#` and has no white space at either end; a line with
   * neither marker gives its stripped self.
   */
  lemma TitleTextSpec(line: string)
    ensures '#' !in TitleText(line)
    ensures TitleText(line) != [] ==> !IsSpace(TitleText(line)[0]) && !IsSpace(TitleText(line)[|TitleText(line)| - 1])
    ensures !Contains(line, "TITEL:") && '#' !in line ==> TitleText(line) == Strip(line)
  {
    var noTitel := RemoveAll(line, "TITEL:");
    RemoveAllChar(noTitel, '#');
    StripSpec(RemoveAll(noTitel, "#"));
    RemoveAllUnchanged(line, "TITEL:");
  }

  /** A leading `TITEL:` marker, or a leading `#`, contributes nothing to the title. */
  lemma TitleMarkersDropped(rest: string)
    ensures TitleText("TITEL:" + rest) == TitleText(rest)
    ensures TitleText("#" + rest) == TitleText(rest)
  {
    var m := "TITEL:" + rest;
    assert m[..6] == "TITEL:" && m[6..] == rest;
    var h := "#" + rest;
    assert h[0] == '#' && h[1..] == rest;
    assert RemoveAll(h, "TITEL:") == "#" + RemoveAll(rest, "TITEL:");
    var x := "#" + RemoveAll(rest, "TITEL:");
    assert x[..1] == "#" && x[1..] == RemoveAll(rest, "TITEL:");
  }

  /**
   * The title test ignores case but the removal does not: a line that starts with
   * the lower-case marker `titel:` is a title line, and TitleText keeps that
   * marker because it holds no `TITEL:`.
   */
  lemma LowerCaseMarkerIsTitle(line: string)
    requires StartsWith(line, "titel:")
    ensures IsTitleLine(line)
  {
    UpperStartsWith(line, "titel:");
    assert Upper("titel:") == "TITEL:";
  }

  // ---------------------------------------------------------------------------
  // Parser state machine
  // ---------------------------------------------------------------------------

  /** What one raw line is to the parser's loop; the branch it takes depends on the line alone. */
  datatype LineKind = TitleLine(title: string) | HeadingLine(key: string) | TextLine(text: string) | BlankLine

  /** The branch of the loop body a raw line takes: strip it, test for a title line, then for a heading. */
  function Classify(raw: string): (k: LineKind)
    ensures k.HeadingLine? ==> k.key in SectionOrder
  {
    var line := Strip(raw);
    if IsTitleLine(line) then TitleLine(TitleText(line))
    else
      match IdentifySection(line)
      case Some(key) => HeadingLine(key)
      case None => if line != "" then TextLine(line) else BlankLine
  }

  /** A line that can be part of a section body: non-empty, stripped, neither a title nor a heading. */
  predicate BodyLine(line: string)
  {
    line != "" && Strip(line) == line && !IsTitleLine(line) && IdentifySection(line).None?
  }

  /** A table whose keywords are all non-empty finds nothing in the empty line. */
  lemma {:induction false} FirstSectionEmpty(table: seq<(string, seq<string>)>)
    requires forall i, j :: 0 <= i < |table| && 0 <= j < |table[i].1| ==> table[i].1[j] != ""
    ensures FirstSection(table, "").None?
    decreases |table|
  {
    if table != [] {
      AnyKeywordSpec(table[0].1, "");
      assert forall i, j :: 0 <= i < |table| - 1 && 0 <= j < |table[1..][i].1| ==> table[1..][i].1[j] == table[i + 1].1[j];
      FirstSectionEmpty(table[1..]);
    }
  }

  /** The empty line holds no keyword. */
  lemma EmptyLineIsNoHeading()
    ensures IdentifySection("").None?
  {
    KeywordsNonEmpty();
    assert Upper("") == "";
    FirstSectionEmpty(SectionKeywords);
  }

  /** The title branch: taken exactly for title lines. */
  lemma ClassifyTitle(raw: string)
    ensures Classify(raw).TitleLine? <==> IsTitleLine(Strip(raw))
    ensures Classify(raw).TitleLine? ==> Classify(raw).title == TitleText(Strip(raw))
  {
    var line := Strip(raw);
    if IsTitleLine(line) {
      assert Classify(raw) == TitleLine(TitleText(line));
    } else {
      assert !Classify(raw).TitleLine?;
    }
  }

  /** The heading branch: taken exactly for lines that are no title line and hold a keyword. */
  lemma ClassifyHeading(raw: string)
    ensures Classify(raw).HeadingLine? <==> !IsTitleLine(Strip(raw)) && IdentifySection(Strip(raw)).Some?
    ensures Classify(raw).HeadingLine? ==> Classify(raw).key == IdentifySection(Strip(raw)).value
  {
    var line := Strip(raw);
    if IsTitleLine(line) {
      assert Classify(raw) == TitleLine(TitleText(line));
    } else if IdentifySection(line).Some? {
      assert Classify(raw) == HeadingLine(IdentifySection(line).value);
    } else {
      assert !Classify(raw).HeadingLine?;
    }
  }

  /** The text branch: taken exactly when the stripped line is a body line, which is then appended. */
  lemma ClassifyText(raw: string)
    ensures Classify(raw).TextLine? <==> BodyLine(Strip(raw))
    ensures Classify(raw).TextLine? ==> Classify(raw).text == Strip(raw)
  {
    var line := Strip(raw);
    StripIdempotent(raw);
    if IsTitleLine(line) {
      assert Classify(raw) == TitleLine(TitleText(line));
      assert !BodyLine(line);
    } else if IdentifySection(line).Some? {
      assert Classify(raw) == HeadingLine(IdentifySection(line).value);
      assert !BodyLine(line);
    } else if line != "" {
      assert Classify(raw) == TextLine(line);
      assert BodyLine(line);
    } else {
      assert Classify(raw) == BlankLine;
      assert !BodyLine(line);
    }
  }

  /** The remaining branch: taken exactly for lines that are blank once stripped. */
  lemma ClassifyBlank(raw: string)
    ensures Classify(raw).BlankLine? <==> Strip(raw) == ""
  {
    var line := Strip(raw);
    if line == "" {
      EmptyLineIsNoHeading();
      assert !IsTitleLine(line);
      assert Classify(raw) == BlankLine;
    } else if IsTitleLine(line) {
      assert Classify(raw) == TitleLine(TitleText(line));
    } else if IdentifySection(line).Some? {
      assert Classify(raw) == HeadingLine(IdentifySection(line).value);
    } else {
      assert Classify(raw) == TextLine(line);
    }
  }

  /** The four branches, each characterised by the tests the loop body makes on the stripped line. */
  lemma ClassifySpec(raw: string)
    ensures Classify(raw).TitleLine? <==> IsTitleLine(Strip(raw))
    ensures Classify(raw).TitleLine? ==> Classify(raw).title == TitleText(Strip(raw))
    ensures Classify(raw).HeadingLine? <==> !IsTitleLine(Strip(raw)) && IdentifySection(Strip(raw)).Some?
    ensures Classify(raw).HeadingLine? ==> Classify(raw).key == IdentifySection(Strip(raw)).value
    ensures Classify(raw).TextLine? <==> BodyLine(Strip(raw))
    ensures Classify(raw).TextLine? ==> Classify(raw).text == Strip(raw)
    ensures Classify(raw).BlankLine? <==> Strip(raw) == ""
  {
    ClassifyTitle(raw);
    ClassifyHeading(raw);
    ClassifyText(raw);
    ClassifyBlank(raw);
  }

  /** `f` applied to every line. */
  function MapLines<T>(f: string -> T, lines: seq<string>): (r: seq<T>)
    ensures |r| == |lines|
    ensures forall i :: 0 <= i < |lines| ==> r[i] == f(lines[i])
  {
    seq(|lines|, i requires 0 <= i < |lines| => f(lines[i]))
  }

  lemma MapLinesAppend<T>(f: string -> T, a: seq<string>, b: seq<string>)
    ensures MapLines(f, a + b) == MapLines(f, a) + MapLines(f, b)
  {
    assert forall i :: 0 <= i < |a| ==> (a + b)[i] == a[i];
    assert forall i :: |a| <= i < |a| + |b| ==> (a + b)[i] == b[i - |a|];
  }

  lemma MapLinesTail<T>(f: string -> T, a: seq<string>)
    requires a != []
    ensures MapLines(f, a)[1..] == MapLines(f, a[1..])
  {
  }

  /** The classification of every line. */
  function Kinds(lines: seq<string>): seq<LineKind>
  {
    MapLines(Classify, lines)
  }

  /** The parser's locals: the section map, the current section and the line accumulator. */
  datatype ParseState = ParseState(sections: map<string, string>, current: Option<string>, content: seq<string>)

  const Init: ParseState := ParseState(map[], None, [])

  /** Store the accumulator under the current section, if there is one and the accumulator is non-empty. */
  function Flush(st: ParseState): map<string, string>
  {
    if st.current.Some? && st.content != [] then st.sections[st.current.value := Join(st.content)]
    else st.sections
  }

  /** One iteration of the parser's loop, on a classified line. */
  function Step(st: ParseState, k: LineKind): ParseState
  {
    match k
    case TitleLine(t) => st.(sections := st.sections[TitleKey := t])
    case HeadingLine(key) => ParseState(Flush(st), Some(key), [])
    case TextLine(line) => if st.current.Some? then st.(content := st.content + [line]) else st
    case BlankLine => st
  }

  /** The loop over all lines. */
  function Run(st: ParseState, kinds: seq<LineKind>): ParseState
    decreases |kinds|
  {
    if kinds == [] then st else Run(Step(st, kinds[0]), kinds[1..])
  }

  /** The whole parse over already-split lines: the loop, then the final flush. */
  function ParseLines(lines: seq<string>): map<string, string>
  {
    Flush(Run(Init, Kinds(lines)))
  }

  /** `_parse_content_sections` as a function of the text. */
  function ParseSections(content: string): map<string, string>
  {
    ParseLines(Split(content))
  }

  /**
   * `_parse_content_sections`: walks the lines of `content`, switching section at
   * every heading line, collecting body lines, recording title lines.
   */
  method ParseContentSections(content: string) returns (sections: map<string, string>)
    ensures sections == ParseSections(content)
    ensures forall k :: k in sections ==> k == TitleKey || k in SectionOrder
    ensures forall k :: k in sections && k != TitleKey ==> sections[k] != ""
  {
    sections := map[];
    var currentSection: Option<string> := None;
    var currentContent: seq<string> := [];
    var lines := Split(content);
    ghost var kinds := Kinds(lines);
    var i := 0;
    while i < |lines|
      invariant 0 <= i <= |lines|
      invariant Run(ParseState(sections, currentSection, currentContent), kinds[i..]) == Run(Init, kinds)
    {
      ghost var st := ParseState(sections, currentSection, currentContent);
      assert Run(st, kinds[i..]) == Run(Step(st, kinds[i]), kinds[i + 1..]) by {
        assert kinds[i..][0] == kinds[i] && kinds[i..][1..] == kinds[i + 1..];
      }
      var line := Strip(lines[i]);
      if IsTitleLine(line) {
        sections := sections[TitleKey := TitleText(line)];
        i := i + 1;
        continue;
      }
      var sectionKey := IdentifySection(line);
      if sectionKey.Some? {
        if currentSection.Some? && currentContent != [] {
          sections := sections[currentSection.value := Join(currentContent)];
        }
        currentSection := sectionKey;
        currentContent := [];
        i := i + 1;
        continue;
      }
      if currentSection.Some? && line != "" {
        currentContent := currentContent + [line];
      }
      i := i + 1;
    }
    if currentSection.Some? && currentContent != [] {
      sections := sections[currentSection.value := Join(currentContent)];
    }
    ParseSectionsShape(content);
  }

  // ---------------------------------------------------------------------------
  // What the parser's result looks like
  // ---------------------------------------------------------------------------

  /** A block of lines drawn from `good`. */
  predicate IsBlock(block: seq<string>, good: set<string>)
  {
    block != [] && forall i :: 0 <= i < |block| ==> block[i] in good
  }

  /** `body` is the newline-join of some block of lines drawn from `good`. */
  ghost predicate IsBody(body: string, good: set<string>)
  {
    exists block :: IsBlock(block, good) && body == Join(block)
  }

  /** The stripped input lines that are body lines. */
  function BodyLineSet(lines: seq<string>): set<string>
  {
    set i | 0 <= i < |lines| && BodyLine(Strip(lines[i])) :: Strip(lines[i])
  }

  /** Every text line is drawn from `good`. */
  predicate TextsWithin(kinds: seq<LineKind>, good: set<string>)
  {
    forall i :: 0 <= i < |kinds| && kinds[i].TextLine? ==> kinds[i].text in good
  }

  /** Every heading opens a section of the table. */
  predicate KnownHeadings(kinds: seq<LineKind>)
  {
    forall i :: 0 <= i < |kinds| && kinds[i].HeadingLine? ==> kinds[i].key in SectionOrder
  }

  /** The parser's state invariant. */
  ghost predicate WellFormed(st: ParseState, good: set<string>)
  {
    && (st.current.Some? ==> st.current.value in SectionOrder)
    && (forall i :: 0 <= i < |st.content| ==> st.content[i] in good)
    && (forall k :: k in st.sections ==> k == TitleKey || (k in SectionOrder && IsBody(st.sections[k], good)))
  }

  lemma FlushWellFormed(st: ParseState, good: set<string>)
    requires WellFormed(st, good)
    ensures forall k :: k in Flush(st) ==> k == TitleKey || (k in SectionOrder && IsBody(Flush(st)[k], good))
  {
    if st.current.Some? && st.content != [] {
      assert IsBlock(st.content, good);
    }
  }

  lemma StepWellFormed(st: ParseState, k: LineKind, good: set<string>)
    requires WellFormed(st, good)
    requires k.HeadingLine? ==> k.key in SectionOrder
    requires k.TextLine? ==> k.text in good
    ensures WellFormed(Step(st, k), good)
  {
    if k.HeadingLine? {
      FlushWellFormed(st, good);
    }
  }

  /** The invariant holds after any number of lines. */
  lemma {:induction false} RunWellFormed(st: ParseState, kinds: seq<LineKind>, good: set<string>)
    requires WellFormed(st, good) && TextsWithin(kinds, good) && KnownHeadings(kinds)
    ensures WellFormed(Run(st, kinds), good)
    decreases |kinds|
  {
    if kinds != [] {
      StepWellFormed(st, kinds[0], good);
      assert forall i :: 0 <= i < |kinds| - 1 ==> kinds[1..][i] == kinds[i + 1];
      RunWellFormed(Step(st, kinds[0]), kinds[1..], good);
    }
  }

  /** Every text line of the classified split lines is one of its body lines. */
  lemma KindsTextsWithin(lines: seq<string>)
    ensures TextsWithin(Kinds(lines), BodyLineSet(lines))
  {
    var kinds := Kinds(lines);
    forall i | 0 <= i < |kinds| && kinds[i].TextLine?
      ensures kinds[i].text in BodyLineSet(lines)
    {
      ClassifyText(lines[i]);
    }
  }

  /** The shape of the parse of classified lines whose text lines are drawn from `good`. */
  lemma ParseShape(kinds: seq<LineKind>, good: set<string>)
    requires "" !in good && TextsWithin(kinds, good) && KnownHeadings(kinds)
    ensures forall k :: k in Flush(Run(Init, kinds)) ==> k == TitleKey || k in SectionOrder
    ensures forall k :: k in Flush(Run(Init, kinds)) && k != TitleKey ==>
                          Flush(Run(Init, kinds))[k] != "" && IsBody(Flush(Run(Init, kinds))[k], good)
  {
    assert WellFormed(Init, good);
    RunWellFormed(Init, kinds, good);
    var st := Run(Init, kinds);
    FlushWellFormed(st, good);
    var r := Flush(st);
    forall k | k in r && k != TitleKey
      ensures r[k] != ""
    {
      var block :| IsBlock(block, good) && r[k] == Join(block);
      assert block[0] in good;
    }
  }

  /**
   * The result's keys are the title key and section keys; every section body is
   * the newline-join of a non-empty block of stripped input lines, each of them
   * non-empty and neither a title line nor a heading.
   */
  lemma ParseSectionsShape(content: string)
    ensures forall k :: k in ParseSections(content) ==> k == TitleKey || k in SectionOrder
    ensures forall k :: k in ParseSections(content) && k != TitleKey ==>
                          ParseSections(content)[k] != "" && IsBody(ParseSections(content)[k], BodyLineSet(Split(content)))
  {
    var lines := Split(content);
    KindsTextsWithin(lines);
    KnownHeadingsOf(lines);
    assert "" !in BodyLineSet(lines);
    ParseShape(Kinds(lines), BodyLineSet(lines));
  }

  // ---------------------------------------------------------------------------
  // Properties of the loop
  // ---------------------------------------------------------------------------

  /** Reference definition of the last title: the title of the last title line, if any. */
  function LastTitle(kinds: seq<LineKind>): Option<string>
    decreases |kinds|
  {
    if kinds == [] then None
    else
      match LastTitle(kinds[1..])
      case Some(t) => Some(t)
      case None => if kinds[0].TitleLine? then Some(kinds[0].title) else None
  }

  /** LastTitle finds a title exactly when some line is a title line, and then the one of the last such line. */
  lemma {:induction false} LastTitleSpec(kinds: seq<LineKind>)
    ensures LastTitle(kinds).None? <==> forall i :: 0 <= i < |kinds| ==> !kinds[i].TitleLine?
    ensures LastTitle(kinds).Some? ==>
              exists i :: 0 <= i < |kinds| && kinds[i].TitleLine? && LastTitle(kinds).value == kinds[i].title
                          && forall j :: i < j < |kinds| ==> !kinds[j].TitleLine?
    decreases |kinds|
  {
    if kinds != [] {
      var rest := kinds[1..];
      LastTitleSpec(rest);
      assert forall i :: 1 <= i < |kinds| ==> kinds[i] == rest[i - 1];
      if LastTitle(rest).Some? {
        var i :| 0 <= i < |rest| && rest[i].TitleLine? && LastTitle(rest).value == rest[i].title
                 && forall j :: i < j < |rest| ==> !rest[j].TitleLine?;
        assert kinds[i + 1].TitleLine? && LastTitle(kinds).value == kinds[i + 1].title;
      }
    }
  }

  /** The text lines of a block, in order: what the parser appends to an open section. */
  function Texts(kinds: seq<LineKind>): seq<string>
    decreases |kinds|
  {
    if kinds == [] then []
    else if kinds[0].TextLine? then [kinds[0].text] + Texts(kinds[1..])
    else Texts(kinds[1..])
  }

  /** No line of the block is a heading. */
  predicate NoHeading(kinds: seq<LineKind>)
  {
    forall i :: 0 <= i < |kinds| ==> !kinds[i].HeadingLine?
  }

  /** Running the loop over `a + b` is running it over `a`, then over `b`. */
  lemma {:induction false} RunAppend(st: ParseState, a: seq<LineKind>, b: seq<LineKind>)
    ensures Run(st, a + b) == Run(Run(st, a), b)
    decreases |a|
  {
    if a == [] {
      assert a + b == b;
    } else {
      assert (a + b)[0] == a[0] && (a + b)[1..] == a[1..] + b;
      RunAppend(Step(st, a[0]), a[1..], b);
    }
  }

  /**
   * A block without headings stays in the current section: the accumulator grows
   * by the block's text lines, and nothing but the title entry of the map changes.
   */
  lemma {:induction false} RunWithinSection(m: map<string, string>, key: string, acc: seq<string>, block: seq<LineKind>)
    requires NoHeading(block)
    ensures Run(ParseState(m, Some(key), acc), block).current == Some(key)
    ensures Run(ParseState(m, Some(key), acc), block).content == acc + Texts(block)
    ensures Run(ParseState(m, Some(key), acc), block).sections - {TitleKey} == m - {TitleKey}
    decreases |block|
  {
    if block == [] {
      assert acc + [] == acc;
    } else {
      var next := Step(ParseState(m, Some(key), acc), block[0]);
      assert next.sections - {TitleKey} == m - {TitleKey};
      assert NoHeading(block[1..]) by {
        assert forall i :: 0 <= i < |block| - 1 ==> block[1..][i] == block[i + 1];
      }
      RunWithinSection(next.sections, key, next.content, block[1..]);
      assert Run(ParseState(m, Some(key), acc), block) == Run(next, block[1..]);
      if block[0].TextLine? {
        assert acc + Texts(block) == (acc + [block[0].text]) + Texts(block[1..]);
      }
    }
  }

  /** Before any section is open, a block without headings changes nothing but the title entry. */
  lemma {:induction false} RunOutsideSection(m: map<string, string>, block: seq<LineKind>)
    requires NoHeading(block)
    ensures Run(ParseState(m, None, []), block).current == None
    ensures Run(ParseState(m, None, []), block).content == []
    ensures Run(ParseState(m, None, []), block).sections - {TitleKey} == m - {TitleKey}
    decreases |block|
  {
    if block != [] {
      var next := Step(ParseState(m, None, []), block[0]);
      assert next.current == None && next.content == [] && next.sections - {TitleKey} == m - {TitleKey};
      assert NoHeading(block[1..]) by {
        assert forall i :: 0 <= i < |block| - 1 ==> block[1..][i] == block[i + 1];
      }
      RunOutsideSection(next.sections, block[1..]);
    }
  }

  /** Two parser states that agree on everything but the title entry. */
  predicate SameBesideTitle(a: ParseState, b: ParseState)
  {
    a.current == b.current && a.content == b.content && a.sections - {TitleKey} == b.sections - {TitleKey}
    && (a.current.Some? ==> a.current.value != TitleKey)
  }

  /** The title entry never influences anything else the parser does. */
  lemma {:induction false} RunIgnoresTitle(a: ParseState, b: ParseState, kinds: seq<LineKind>)
    requires SameBesideTitle(a, b) && KnownHeadings(kinds)
    ensures SameBesideTitle(Run(a, kinds), Run(b, kinds))
    ensures Flush(Run(a, kinds)) - {TitleKey} == Flush(Run(b, kinds)) - {TitleKey}
    decreases |kinds|
  {
    ReservedKeys();
    if kinds != [] {
      var k := kinds[0];
      if k.HeadingLine? {
        assert Flush(a) - {TitleKey} == Flush(b) - {TitleKey} by {
          if a.current.Some? && a.content != [] {
            assert Flush(a) - {TitleKey} == (a.sections - {TitleKey})[a.current.value := Join(a.content)];
            assert Flush(b) - {TitleKey} == (b.sections - {TitleKey})[b.current.value := Join(b.content)];
          }
        }
      } else if k.TitleLine? {
        assert a.sections[TitleKey := k.title] - {TitleKey} == a.sections - {TitleKey};
        assert b.sections[TitleKey := k.title] - {TitleKey} == b.sections - {TitleKey};
      }
      assert SameBesideTitle(Step(a, k), Step(b, k));
      assert KnownHeadings(kinds[1..]) by {
        assert forall i :: 0 <= i < |kinds| - 1 ==> kinds[1..][i] == kinds[i + 1];
      }
      RunIgnoresTitle(Step(a, k), Step(b, k), kinds[1..]);
    } else {
      if a.current.Some? && a.content != [] {
        assert Flush(a) - {TitleKey} == (a.sections - {TitleKey})[a.current.value := Join(a.content)];
        assert Flush(b) - {TitleKey} == (b.sections - {TitleKey})[b.current.value := Join(b.content)];
      }
    }
  }

  /** After any run, the title entry is the last title seen, or the one before the run if none was seen. */
  lemma {:induction false} RunTitle(st: ParseState, kinds: seq<LineKind>)
    requires st.current.Some? ==> st.current.value != TitleKey
    requires KnownHeadings(kinds)
    ensures Run(st, kinds).current.Some? ==> Run(st, kinds).current.value != TitleKey
    ensures LastTitle(kinds).Some? ==>
              TitleKey in Run(st, kinds).sections && Run(st, kinds).sections[TitleKey] == LastTitle(kinds).value
    ensures LastTitle(kinds).None? ==>
              (TitleKey in Run(st, kinds).sections <==> TitleKey in st.sections)
              && (TitleKey in st.sections ==> Run(st, kinds).sections[TitleKey] == st.sections[TitleKey])
    decreases |kinds|
  {
    ReservedKeys();
    if kinds != [] {
      assert KnownHeadings(kinds[1..]) by {
        assert forall i :: 0 <= i < |kinds| - 1 ==> kinds[1..][i] == kinds[i + 1];
      }
      RunTitle(Step(st, kinds[0]), kinds[1..]);
    }
  }

  // ---------------------------------------------------------------------------
  // Properties of the parse, over raw lines
  // ---------------------------------------------------------------------------

  /** A raw line that switches section. */
  predicate IsHeading(raw: string)
  {
    Classify(raw).HeadingLine?
  }

  /** The stripped body lines of a block, in order: what the parser collects for an open section. */
  function BodyLines(block: seq<string>): seq<string>
  {
    Texts(Kinds(block))
  }

  /** BodyLines keeps exactly the lines whose stripped form is a body line, stripped, in their order. */
  lemma BodyLinesFilter(block: seq<string>)
    ensures block == [] ==> BodyLines(block) == []
    ensures block != [] ==>
              BodyLines(block) == (if BodyLine(Strip(block[0])) then [Strip(block[0])] else []) + BodyLines(block[1..])
  {
    if block != [] {
      ClassifySpec(block[0]);
      MapLinesTail(Classify, block);
    }
  }

  /** Every split line is either no heading or opens a section of the table. */
  lemma KnownHeadingsOf(lines: seq<string>)
    ensures KnownHeadings(Kinds(lines))
  {
  }

  /** On classified lines: a title exactly when some line is a title line, and then the last one's. */
  lemma ParseTitle(kinds: seq<LineKind>)
    requires KnownHeadings(kinds)
    ensures TitleKey in Flush(Run(Init, kinds)) <==> exists i :: 0 <= i < |kinds| && kinds[i].TitleLine?
    ensures TitleKey in Flush(Run(Init, kinds)) ==>
              exists i :: 0 <= i < |kinds| && kinds[i].TitleLine? && Flush(Run(Init, kinds))[TitleKey] == kinds[i].title
                          && forall j :: i < j < |kinds| ==> !kinds[j].TitleLine?
  {
    RunTitle(Init, kinds);
    LastTitleSpec(kinds);
    var st := Run(Init, kinds);
    if st.current.Some? && st.content != [] {
      assert Flush(st) == st.sections[st.current.value := Join(st.content)];
    }
  }

  /** The result has a title only if some stripped line is a title line. */
  lemma NoTitleLineNoTitle(content: string)
    ensures TitleKey !in ParseSections(content) ==>
              forall i :: 0 <= i < |Split(content)| ==> !IsTitleLine(Strip(Split(content)[i]))
  {
    var lines := Split(content);
    var kinds := Kinds(lines);
    KnownHeadingsOf(lines);
    ParseTitle(kinds);
    assert ParseSections(content) == Flush(Run(Init, kinds));
    if TitleKey !in ParseSections(content) {
      forall i | 0 <= i < |lines|
        ensures !IsTitleLine(Strip(lines[i]))
      {
        ClassifyTitle(lines[i]);
        assert !kinds[i].TitleLine?;
      }
    }
  }

  /**
   * The last title wins: when the result has a title, it is the title text of
   * a stripped title line after which no line is a title line. With
   * NoTitleLineNoTitle: a title exactly when some line is a title line.
   */
  lemma LastTitleWins(content: string)
    ensures TitleKey in ParseSections(content) ==>
              exists i :: 0 <= i < |Split(content)| && IsTitleLine(Strip(Split(content)[i]))
                          && ParseSections(content)[TitleKey] == TitleText(Strip(Split(content)[i]))
                          && forall j :: i < j < |Split(content)| ==> !IsTitleLine(Strip(Split(content)[j]))
  {
    var lines := Split(content);
    var kinds := Kinds(lines);
    KnownHeadingsOf(lines);
    ParseTitle(kinds);
    assert ParseSections(content) == Flush(Run(Init, kinds));
    if TitleKey in ParseSections(content) {
      var i :| 0 <= i < |kinds| && kinds[i].TitleLine? && ParseSections(content)[TitleKey] == kinds[i].title
               && forall j :: i < j < |kinds| ==> !kinds[j].TitleLine?;
      ClassifyTitle(lines[i]);
      forall j | i < j < |lines|
        ensures !IsTitleLine(Strip(lines[j]))
      {
        ClassifyTitle(lines[j]);
        assert !kinds[j].TitleLine?;
      }
      assert IsTitleLine(Strip(lines[i])) && ParseSections(content)[TitleKey] == TitleText(Strip(lines[i]));
    }
  }

  /**
   * A heading flushes the block before it and opens its section afresh, whether
   * or not it names the section already open: after `pre`, a heading for `key`
   * and a block without headings, the result is the flushed result of `pre`,
   * with `key` overwritten by the block's body lines when there are any (and kept
   * otherwise). The title entry is described by LastTitleWins.
   */
  lemma LastBlockWins(pre: seq<string>, heading: string, block: seq<string>)
    requires IsHeading(heading)
    requires forall i :: 0 <= i < |block| ==> !IsHeading(block[i])
    ensures var key := IdentifySection(Strip(heading)).value;
            var before := ParseLines(pre);
            ParseLines(pre + [heading] + block) - {TitleKey}
            == (if BodyLines(block) != [] then before[key := Join(BodyLines(block))] else before) - {TitleKey}
  {
    ClassifySpec(heading);
    var key := Classify(heading).key;
    var st := Run(Init, Kinds(pre));
    MapLinesAppend(Classify, pre, [heading]);
    MapLinesAppend(Classify, pre + [heading], block);
    var kinds := Kinds(pre) + Kinds([heading]) + Kinds(block);
    RunAppend(Init, Kinds(pre), Kinds([heading]));
    RunAppend(Init, Kinds(pre) + Kinds([heading]), Kinds(block));
    assert Run(st, Kinds([heading])) == Step(st, Classify(heading));
    assert Step(st, Classify(heading)) == ParseState(Flush(st), Some(key), []);
    RunWithinSection(Flush(st), key, [], Kinds(block));
    var fin := Run(ParseState(Flush(st), Some(key), []), Kinds(block));
    assert Run(Init, Kinds(pre + [heading] + block)) == fin;
    assert fin.content == BodyLines(block) by {
      assert [] + Texts(Kinds(block)) == Texts(Kinds(block));
    }
    ReservedKeys();
    if BodyLines(block) != [] {
      var body := Join(BodyLines(block));
      assert Flush(fin) == fin.sections[key := body];
      UpdateBesideTitle(fin.sections, key, body);
      UpdateBesideTitle(Flush(st), key, body);
    }
  }

  lemma UpdateBesideTitle(m: map<string, string>, key: string, v: string)
    requires key != TitleKey
    ensures m[key := v] - {TitleKey} == (m - {TitleKey})[key := v]
  {
  }

  /** Lines before the first heading are discarded: apart from titles they leave no trace. */
  lemma DiscardedBeforeHeading(pre: seq<string>, rest: seq<string>)
    requires forall i :: 0 <= i < |pre| ==> !IsHeading(pre[i])
    ensures ParseLines(pre + rest) - {TitleKey} == ParseLines(rest) - {TitleKey}
  {
    MapLinesAppend(Classify, pre, rest);
    KnownHeadingsOf(rest);
    RunOutsideSection(map[], Kinds(pre));
    RunAppend(Init, Kinds(pre), Kinds(rest));
    RunIgnoresTitle(Run(Init, Kinds(pre)), Init, Kinds(rest));
  }

  /** Text without any heading yields no section at all, only possibly a title. */
  lemma NoHeadingNoSections(lines: seq<string>)
    requires forall i :: 0 <= i < |lines| ==> !IsHeading(lines[i])
    ensures ParseLines(lines).Keys <= {TitleKey}
  {
    RunOutsideSection(map[], Kinds(lines));
    var st := Run(Init, Kinds(lines));
    assert ParseLines(lines) == st.sections;
    assert (st.sections - {TitleKey}).Keys == {};
  }

  // ---------------------------------------------------------------------------
  // Assembly
  // ---------------------------------------------------------------------------

  /** What the content step appends to the document. */
  datatype Entry =
    | Title(text: string)          // \title{...}
    | Author(name: string)         // \author{...}
    | Date                         // \date{\today}
    | MakeTitle                    // \maketitle
    | Section(heading: string, body: string)

  /** The author used when the sections name none. */
  const DefaultAuthor: string := "CTA-Azubi"

  /** The title block: emitted only when the sections hold a title. */
  function TitleBlock(sections: map<string, string>): (r: seq<Entry>)
    ensures TitleKey !in sections <==> r == []
    ensures TitleKey in sections ==> |r| == 4 && r[0] == Title(sections[TitleKey]) && r[2] == Date && r[3] == MakeTitle
    ensures TitleKey in sections ==> r[1] == Author(if "author" in sections then sections["author"] else DefaultAuthor)
  {
    if TitleKey in sections then
      [Title(sections[TitleKey]),
       Author(if "author" in sections then sections["author"] else DefaultAuthor),
       Date,
       MakeTitle]
    else []
  }

  /** The keys of `keys` that `sections` holds, in the order of `keys`. */
  function Present(keys: seq<string>, sections: map<string, string>): (r: seq<string>)
    ensures forall i :: 0 <= i < |r| ==> r[i] in sections
    decreases |keys|
  {
    if keys == [] then []
    else
      var last := keys[|keys| - 1];
      Present(keys[..|keys| - 1], sections) + (if last in sections then [last] else [])
  }

  /** The section entries for `keys`: one per key that `sections` holds, with its label and body. */
  function SectionEntries(keys: seq<string>, sections: map<string, string>): seq<Entry>
    decreases |keys|
  {
    if keys == [] then []
    else
      var last := keys[|keys| - 1];
      SectionEntries(keys[..|keys| - 1], sections)
        + (if last in sections then [Section(SectionTitle(last), sections[last])] else [])
  }

  /** The labelled section of a present key. */
  function SectionOf(key: string, sections: map<string, string>): Entry
    requires key in sections
  {
    Section(SectionTitle(key), sections[key])
  }

  /** Extending the keys by one extends the entries by that key's section, if it is held. */
  lemma SectionEntriesExtend(keys: seq<string>, i: nat, sections: map<string, string>)
    requires i < |keys|
    ensures keys[i] in sections ==>
              SectionEntries(keys[..i + 1], sections) == SectionEntries(keys[..i], sections) + [SectionOf(keys[i], sections)]
    ensures keys[i] !in sections ==> SectionEntries(keys[..i + 1], sections) == SectionEntries(keys[..i], sections)
  {
    assert keys[..i + 1][..i] == keys[..i];
    assert SectionEntries(keys[..i], sections) + [] == SectionEntries(keys[..i], sections);
  }

  /** Everything the content step appends for a parsed section map. */
  function Assembly(sections: map<string, string>): seq<Entry>
  {
    TitleBlock(sections) + SectionEntries(SectionOrder, sections)
  }

  /** Present keeps exactly the keys that are both listed and held. */
  lemma {:induction false} PresentSpec(keys: seq<string>, sections: map<string, string>)
    ensures forall k :: k in Present(keys, sections) <==> k in keys && k in sections
    decreases |keys|
  {
    if keys != [] {
      var init := keys[..|keys| - 1];
      PresentSpec(init, sections);
      assert keys == init + [keys[|keys| - 1]];
    }
  }

  /** Any two elements of `r` occur in `s` in the same order. */
  ghost predicate Subsequence(r: seq<string>, s: seq<string>)
  {
    forall i, j :: 0 <= i < j < |r| ==> exists a, b :: 0 <= a < b < |s| && s[a] == r[i] && s[b] == r[j]
  }

  /** Present keeps the order of `keys`. */
  lemma {:induction false} PresentOrdered(keys: seq<string>, sections: map<string, string>)
    ensures Subsequence(Present(keys, sections), keys)
    decreases |keys|
  {
    if keys != [] {
      var n := |keys| - 1;
      var init := keys[..n];
      assert forall a :: 0 <= a < n ==> keys[a] == init[a];
      var p := Present(init, sections);
      PresentOrdered(init, sections);
      PresentSpec(init, sections);
      var r := Present(keys, sections);
      if keys[n] in sections {
        assert r == p + [keys[n]];
        forall i, j | 0 <= i < j < |r|
          ensures exists a, b :: 0 <= a < b < |keys| && keys[a] == r[i] && keys[b] == r[j]
        {
          if j < |p| {
            var a, b :| 0 <= a < b < |init| && init[a] == p[i] && init[b] == p[j];
            assert keys[a] == r[i] && keys[b] == r[j];
          } else {
            assert r[i] == p[i] && p[i] in init;
            var a :| 0 <= a < |init| && init[a] == p[i];
            assert keys[a] == r[i] && keys[n] == r[j];
          }
        }
      } else {
        assert r == p;
        forall i, j | 0 <= i < j < |r|
          ensures exists a, b :: 0 <= a < b < |keys| && keys[a] == r[i] && keys[b] == r[j]
        {
          var a, b :| 0 <= a < b < |init| && init[a] == p[i] && init[b] == p[j];
          assert keys[a] == r[i] && keys[b] == r[j];
        }
      }
      assert Subsequence(r, keys);
    }
  }

  /** A key list without repetitions yields present keys without repetitions. */
  lemma {:induction false} PresentDistinct(keys: seq<string>, sections: map<string, string>)
    requires forall i, j :: 0 <= i < j < |keys| ==> keys[i] != keys[j]
    ensures forall i, j :: 0 <= i < j < |Present(keys, sections)| ==> Present(keys, sections)[i] != Present(keys, sections)[j]
    decreases |keys|
  {
    if keys != [] {
      var n := |keys| - 1;
      var init := keys[..n];
      assert forall a :: 0 <= a < n ==> keys[a] == init[a];
      var p := Present(init, sections);
      PresentDistinct(init, sections);
      PresentSpec(init, sections);
      var r := Present(keys, sections);
      if keys[n] in sections {
        assert r == p + [keys[n]];
        assert keys[n] !in init;
        forall i, j | 0 <= i < j < |r|
          ensures r[i] != r[j]
        {
          if j == |p| {
            assert r[i] == p[i] && p[i] in init;
          }
        }
      }
    }
  }

  /** The section entries are the labelled sections of the present keys, in their order. */
  lemma {:induction false} SectionEntriesSpec(keys: seq<string>, sections: map<string, string>)
    ensures |SectionEntries(keys, sections)| == |Present(keys, sections)|
    ensures forall i :: 0 <= i < |Present(keys, sections)| ==>
              SectionEntries(keys, sections)[i] == SectionOf(Present(keys, sections)[i], sections)
    decreases |keys|
  {
    if keys != [] {
      SectionEntriesSpec(keys[..|keys| - 1], sections);
    }
  }

  /** Every listed key the map holds yields its labelled section. */
  lemma SectionEntriesCover(keys: seq<string>, sections: map<string, string>)
    ensures forall k :: k in keys && k in sections ==> SectionOf(k, sections) in SectionEntries(keys, sections)
  {
    var e := SectionEntries(keys, sections);
    var p := Present(keys, sections);
    PresentSpec(keys, sections);
    SectionEntriesSpec(keys, sections);
    forall k | k in keys && k in sections
      ensures SectionOf(k, sections) in e
    {
      var i :| 0 <= i < |p| && p[i] == k;
      assert e[i] == SectionOf(k, sections);
    }
  }

  /** Every section entry is the labelled section of a listed key the map holds. */
  lemma SectionEntriesOnly(keys: seq<string>, sections: map<string, string>)
    ensures forall e :: e in SectionEntries(keys, sections) ==> exists k :: k in keys && k in sections && e == SectionOf(k, sections)
  {
    var es := SectionEntries(keys, sections);
    var p := Present(keys, sections);
    PresentSpec(keys, sections);
    SectionEntriesSpec(keys, sections);
    forall e | e in es
      ensures exists k :: k in keys && k in sections && e == SectionOf(k, sections)
    {
      var i :| 0 <= i < |es| && es[i] == e;
      var k := p[i];
      assert k in p;
      assert k in keys && k in sections && e == SectionOf(k, sections);
    }
  }

  /** For a key list with pairwise different labels, the section entries differ pairwise. */
  lemma SectionEntriesDistinct(keys: seq<string>, sections: map<string, string>)
    requires forall i, j :: 0 <= i < j < |keys| ==> SectionTitle(keys[i]) != SectionTitle(keys[j])
    ensures forall i, j :: 0 <= i < j < |SectionEntries(keys, sections)| ==>
              SectionEntries(keys, sections)[i] != SectionEntries(keys, sections)[j]
  {
    var e := SectionEntries(keys, sections);
    var p := Present(keys, sections);
    PresentOrdered(keys, sections);
    SectionEntriesSpec(keys, sections);
    forall i, j | 0 <= i < j < |e|
      ensures e[i] != e[j]
    {
      var a, b :| 0 <= a < b < |keys| && keys[a] == p[i] && keys[b] == p[j];
      assert e[i].heading == SectionTitle(keys[a]) && e[j].heading == SectionTitle(keys[b]);
    }
  }

  /**
   * What `_add_content_to_document` appends for a map whose keys are the title
   * key and section keys: a title block with the default author exactly when
   * there is a title, then every section exactly once, labelled, and nothing else.
   */
  lemma AssemblySections(sections: map<string, string>)
    requires forall k :: k in sections ==> k == TitleKey || k in SectionOrder
    ensures TitleKey !in sections ==> TitleBlock(sections) == []
    ensures TitleKey in sections ==> TitleBlock(sections) == [Title(sections[TitleKey]), Author(DefaultAuthor), Date, MakeTitle]
    ensures forall k :: k in sections && k != TitleKey ==> SectionOf(k, sections) in SectionEntries(SectionOrder, sections)
    ensures forall e :: e in SectionEntries(SectionOrder, sections) ==>
              exists k :: k in sections && k != TitleKey && e == SectionOf(k, sections)
    ensures var e := SectionEntries(SectionOrder, sections);
            forall i, j :: 0 <= i < j < |e| ==> e[i] != e[j]
    ensures var p := Present(SectionOrder, sections);
            Subsequence(p, SectionOrder) && |SectionEntries(SectionOrder, sections)| == |p|
            && forall i :: 0 <= i < |p| ==> SectionEntries(SectionOrder, sections)[i] == SectionOf(p[i], sections)
  {
    ReservedKeys();
    PresentOrdered(SectionOrder, sections);
    SectionEntriesSpec(SectionOrder, sections);
    SectionEntriesCover(SectionOrder, sections);
    SectionEntriesOnly(SectionOrder, sections);
    SectionTitlesDistinct();
    SectionEntriesDistinct(SectionOrder, sections);
  }

  /**
   * `_add_content_to_document` on a parsed text: a title block whenever the parse
   * has a title and none otherwise (LastTitleWins and NoTitleLineNoTitle tie the
   * title to the text's title lines), always with the default author since
   * the parser never produces an author key; then every parsed section exactly
   * once, labelled, in emission order.
   */
  lemma AssemblyOfParse(content: string)
    ensures var sections := ParseSections(content);
            TitleKey !in sections ==> TitleBlock(sections) == []
    ensures var sections := ParseSections(content);
            TitleKey in sections ==> TitleBlock(sections) == [Title(sections[TitleKey]), Author(DefaultAuthor), Date, MakeTitle]
    ensures var sections := ParseSections(content);
            forall k :: k in sections && k != TitleKey ==> SectionOf(k, sections) in SectionEntries(SectionOrder, sections)
    ensures var sections := ParseSections(content);
            forall e :: e in SectionEntries(SectionOrder, sections) ==>
              exists k :: k in sections && k != TitleKey && e == SectionOf(k, sections)
    ensures var e := SectionEntries(SectionOrder, ParseSections(content));
            forall i, j :: 0 <= i < j < |e| ==> e[i] != e[j]
    ensures var sections := ParseSections(content);
            var p := Present(SectionOrder, sections);
            Subsequence(p, SectionOrder) && |SectionEntries(SectionOrder, sections)| == |p|
            && forall i :: 0 <= i < |p| ==> SectionEntries(SectionOrder, sections)[i] == SectionOf(p[i], sections)
  {
    ParseSectionsShape(content);
    AssemblySections(ParseSections(content));
  }

  /**
   * Regrouping appended entries. A step for AddContent, whose heap context makes
   * the solver slow to find it unaided; it states nothing about the program.
   */
  lemma SeqAssoc(a: seq<Entry>, b: seq<Entry>, c: seq<Entry>)
    ensures a + b + c == a + (b + c)
  {
  }

  /** The document under construction: the sequence of entries appended so far. */
  class Document {
    var entries: seq<Entry>

    constructor ()
      ensures entries == []
    {
      entries := [];
    }

    /** `_add_content_to_document`: parse `content`, then append the title block and the sections in order. */
    method AddContent(content: string)
      modifies this
      ensures entries == old(entries) + Assembly(ParseSections(content))
    {
      var sections := ParseContentSections(content);
      ghost var titleBlock := TitleBlock(sections);
      if TitleKey in sections {
        var author := if "author" in sections then sections["author"] else DefaultAuthor;
        entries := entries + [Title(sections[TitleKey]), Author(author), Date, MakeTitle];
      }
      assert entries == old(entries) + titleBlock;
      ghost var rest := SectionEntries(SectionOrder, sections);
      AddSections(SectionOrder, sections);
      assert entries == old(entries) + titleBlock + rest;
      SeqAssoc(old(entries), titleBlock, rest);
    }

    /** The loop over the section order: append the labelled section of every key that `sections` holds. */
    method AddSections(order: seq<string>, sections: map<string, string>)
      modifies this
      ensures entries == old(entries) + SectionEntries(order, sections)
    {
      for i := 0 to |order|
        invariant entries == old(entries) + SectionEntries(order[..i], sections)
      {
        var key := order[i];
        SectionEntriesExtend(order, i, sections);
        if key in sections {
          entries := entries + [Section(SectionTitle(key), sections[key])];
        }
      }
      assert order[..|order|] == order;
    }
  }
}
