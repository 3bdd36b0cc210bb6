# Lab-protocol generator: the text and upload core

This project models, in Dafny, the core of a service that turns lab data into written
protocols. Trainee chemists upload files. A language model drafts the protocol text.
The text is then split into sections and set as a LaTeX document. Three services are
modelled:

- **LaTeX service** (`backend/services/latex_service.py`). It covers four parts:
  - the keyword classifier for section headings;
  - the German section labels;
  - the line-by-line parser that splits the generated text into a title and eight sections;
  - the step that appends the title block and the labelled sections to the document in a fixed order.

  The parser is a `method` with a `while` loop. It is proved equal to a fold (`Run`) over
  classified lines. Every property of the parse is proved about that fold. The document is
  a class whose `entries` sequence the append step extends.

- **File service** (`backend/services/file_service.py`). It covers:
  - extension extraction;
  - the allow-list check (a loop building the union of the four extension sets);
  - first-match category lookup;
  - the validation and path layout of saving an upload.

  The upload folder is a class. Its directories are a set and its stored files are a map from path to bytes.

- **LLM service** (`backend/services/llm_service.py`). It covers:
  - the context record built from the file records and the protocol metadata (a method with a loop);
  - the validation and clean-up of the generated text.

Python's string operations are modelled in module `Strings`: `upper`, `lower`, `capitalize`,
`strip`, `split('\n')`, `'\n'.join`, `startswith`, `in`, `rsplit('.', 1)` and
`replace(p, '')`. Module `Wrappers` holds `Option` and `Result`.

Three consequences of the code worth knowing:

- A line that would read as body text is a heading as soon as it contains a keyword.
  After `ZIELSETZUNG`, the line `Messung der Konzentration.` contains `MESSUNG`, a
  keyword of `ergebnisse`. So it switches to `ergebnisse`, and the objective above it
  gets no body.
- The procedure key is `durchführung`, with `ü`.
- The keyword table is a dict, so first-match order is insertion order: zielsetzung,
  theorie, material, durchführung, ergebnisse, berechnungen, diskussion,
  schlussfolgerung.

## Model

| member | source | states |
|---|---|---|
| Strings.Upper | backend/services/latex_service.py:192 | `upper()` as a definition, one character at a time by the case table; `UpperStartsWith`, `LastDotOfUpper` and `SectionFoundInAnyCase` state what callers rely on |
| Strings.Lower | backend/services/file_service.py:110 | `lower()` as a definition, one character at a time by the case table; `LowerOfUpper` and `ExtensionOfJoin` state what callers rely on |
| Strings.LowerUpperChar | backend/services/file_service.py:110 | under the modelled case tables, lower-casing a character forgets whether it was upper-cased first |
| Strings.LowerOfUpper | backend/services/file_service.py:110 | under the modelled case tables, `s.upper().lower() == s.lower()` |
| Strings.Capitalize | backend/services/latex_service.py:226 | `capitalize()` as a definition under the modelled case tables; `SectionTitleSpec` and `SectionTitleFallback` state its use as the label fallback |
| Strings.StripLeftSpec | backend/services/latex_service.py:163 | the front part removed is all white space, and the kept part does not start with white space |
| Strings.StripRightSpec | backend/services/latex_service.py:163 | the back part removed is all white space, and the kept part does not end with white space |
| Strings.StripSpec | backend/services/latex_service.py:163 | `strip()` keeps a middle slice surrounded only by white space, with no white space at either end |
| Strings.StripUnchanged | backend/services/latex_service.py:163 | a string with no white space at either end is its own strip |
| Strings.StripIdempotent | backend/services/latex_service.py:163-167 | stripping twice is stripping once |
| Strings.StartsWithSpec | backend/services/latex_service.py:166 | `s.startswith(p)` holds exactly when `p` is the prefix of `s` of its length |
| Strings.UpperStartsWith | backend/services/latex_service.py:166 | upper-casing preserves prefixes |
| Strings.ContainsSpec | backend/services/latex_service.py:207 | `p in s` holds exactly when `p` starts at some position of `s` |
| Strings.LastIndexOf | backend/services/file_service.py:110 | None exactly when the character is absent; otherwise a position holding it with no later occurrence |
| Strings.LastDotOfUpper | backend/services/file_service.py:110 | under the modelled case tables, upper-casing does not move the last '.' |
| Strings.Strip | backend/services/latex_service.py:163 | `strip()` as a definition; its meaning is stated by `StripSpec` and `StripIdempotent` |
| Strings.StripLeft | backend/services/latex_service.py:163 | the leading half of `strip()` as a definition; `StripLeftSpec` states its meaning |
| Strings.StripRight | backend/services/latex_service.py:163 | the trailing half of `strip()` as a definition; `StripRightSpec` states its meaning |
| Strings.StartsWith | backend/services/latex_service.py:166 | `startswith` as a definition; its meaning is stated by `StartsWithSpec` |
| Strings.Contains | backend/services/latex_service.py:207 | `p in s` as a definition; its meaning is stated by `ContainsSpec` |
| Strings.Join | backend/services/latex_service.py:174 | `'\n'.join` as a definition; `SplitSpec` proves it undoes `Split` |
| Strings.Split | backend/services/latex_service.py:160 | `split('\n')` always yields at least one piece |
| Strings.SplitSpec | backend/services/latex_service.py:160-174 | no piece holds a newline, and joining the pieces with newlines gives back the text |
| Strings.RemoveAll | backend/services/latex_service.py:167 | `replace(p, '')` never makes a string longer |
| Strings.RemoveAllUnchanged | backend/services/llm_service.py:181-182 | the removal changes the text exactly when the pattern occurs in it |
| Strings.RemoveAllChar | backend/services/latex_service.py:167 | removing a one-character pattern leaves no occurrence of it, and leaves a text without it unchanged |
| LatexService.KeywordTableFollowsOrder | backend/services/latex_service.py:194-205 | the keyword table lists the sections in emission order |
| LatexService.KeywordsNonEmpty | backend/services/latex_service.py:194-203 | no keyword is empty |
| LatexService.SectionOrderDistinct | backend/services/latex_service.py:142-145 | the eight section keys differ pairwise |
| LatexService.ReservedKeys | backend/services/latex_service.py:135-145 | neither `title` nor `author` is a section key |
| LatexService.AnyKeywordSpec | backend/services/latex_service.py:206-208 | the inner loop finds a match exactly when some keyword is a substring of the upper-cased line |
| LatexService.AnyKeyword | backend/services/latex_service.py:206-208 | the inner keyword loop as a definition; `AnyKeywordSpec` states its meaning |
| LatexService.FirstSection | backend/services/latex_service.py:205-210 | a found key is a key of the table |
| LatexService.FirstSectionSpec | backend/services/latex_service.py:205-210 | None exactly when no entry matches; otherwise the key of a matching entry with no earlier match |
| LatexService.IdentifySection | backend/services/latex_service.py:189-210 | a found key is one of the eight sections |
| LatexService.IdentifySectionSpec | backend/services/latex_service.py:189-210 | None exactly when no keyword occurs in the upper-cased line; otherwise the first section, in table order, with a keyword in it |
| LatexService.SectionTitle | backend/services/latex_service.py:212-226 | `titles.get(key, key.capitalize())` as a definition; `SectionTitleSpec`, `SectionTitlesDistinct` and `SectionTitleFallback` state its meaning |
| LatexService.SectionTitleSpec | backend/services/latex_service.py:212-226 | every key of the emission order gets its fixed label, and every key outside it gets `key.capitalize()` |
| LatexService.SectionTitleLabels | backend/services/latex_service.py:215-224 | the label table covers exactly the emitted sections |
| LatexService.SectionTitlesDistinct | backend/services/latex_service.py:215-224 | the labels of the eight sections differ pairwise |
| LatexService.SectionTitleFallback | backend/services/latex_service.py:226 | a key without a label is capitalised (`anhang` becomes `Anhang`) |
| LatexService.IsTitleLine | backend/services/latex_service.py:166 | the title test on the upper-cased stripped line; `LowerCaseMarkerIsTitle` and `ClassifyTitle` state its use |
| LatexService.TitleText | backend/services/latex_service.py:167 | the title text of a title line; its properties are `TitleTextSpec` and `TitleMarkersDropped` |
| LatexService.TitleTextSpec | backend/services/latex_service.py:167 | a title holds no `#` and has no white space at either end; a line with neither marker gives its stripped self |
| LatexService.TitleMarkersDropped | backend/services/latex_service.py:167 | a leading `TITEL:` or `#` contributes nothing to the title |
| LatexService.LowerCaseMarkerIsTitle | backend/services/latex_service.py:166 | a line starting with lower-case `titel:` is a title line, since the test upper-cases the line |
| LatexService.Classify | backend/services/latex_service.py:162-181 | a heading line names one of the eight sections |
| LatexService.FirstSectionEmpty | backend/services/latex_service.py:205-210 | a table of non-empty keywords finds nothing in the empty line |
| LatexService.EmptyLineIsNoHeading | backend/services/latex_service.py:171-172 | the empty line is no heading |
| LatexService.ClassifyTitle | backend/services/latex_service.py:163-168 | the title branch is taken exactly for title lines and records their title text |
| LatexService.ClassifyHeading | backend/services/latex_service.py:171-177 | the heading branch is taken exactly for non-title lines with a keyword, and opens the identified section |
| LatexService.ClassifyText | backend/services/latex_service.py:180-181 | the collect branch is taken exactly for non-empty stripped lines that are neither title nor heading |
| LatexService.ClassifyBlank | backend/services/latex_service.py:163-181 | the remaining branch is taken exactly for blank lines |
| LatexService.ClassifySpec | backend/services/latex_service.py:162-181 | the four branches together, each characterised by the tests on the stripped line |
| LatexService.MapLines | backend/services/latex_service.py:162 | the per-line pass of the loop as a definition; `MapLinesAppend` states that it splits over concatenated lines |
| LatexService.Kinds | backend/services/latex_service.py:162-163 | every stripped line classified, as a definition; `KindsTextsWithin` and `BodyLinesFilter` state what it yields |
| LatexService.Flush | backend/services/latex_service.py:183-185 | the final flush; `FlushWellFormed` states its shape |
| LatexService.Step | backend/services/latex_service.py:162-181 | one loop iteration on a classified line; `StepWellFormed`, `RunWithinSection` and `RunTitle` state its effect |
| LatexService.Run | backend/services/latex_service.py:162-181 | the loop; `RunAppend`, `RunWellFormed`, `RunIgnoresTitle` and `RunTitle` state its effect |
| LatexService.ParseLines | backend/services/latex_service.py:160-185 | the loop and the final flush as a definition; `ParseShape`, `ParseTitle` and `LastBlockWins` state what it yields |
| LatexService.ParseSections | backend/services/latex_service.py:153-187 | the parse as a function of the text, which `ParseContentSections` computes; `ParseSectionsShape`, `LastTitleWins` and `LastBlockWins` state what it yields |
| LatexService.ParseContentSections | backend/services/latex_service.py:153-187 | the loop computes the fold over classified lines; keys are `title` or section keys; no section body is empty |
| LatexService.FlushWellFormed | backend/services/latex_service.py:173-185 | flushing a well-formed state stores only section keys with proper bodies |
| LatexService.StepWellFormed | backend/services/latex_service.py:162-181 | one iteration of the loop preserves the state invariant |
| LatexService.RunWellFormed | backend/services/latex_service.py:162-181 | the state invariant holds after any number of lines |
| LatexService.KindsTextsWithin | backend/services/latex_service.py:180-181 | every collected line is a stripped body line of the input |
| LatexService.ParseShape | backend/services/latex_service.py:153-187 | on classified lines: keys are `title` or section keys, and each body is a non-empty newline-join of collected lines |
| LatexService.ParseSectionsShape | backend/services/latex_service.py:153-187 | each section body is the newline-join of a non-empty block of stripped, non-empty input lines that are neither title nor heading |
| LatexService.LastTitleSpec | backend/services/latex_service.py:166-168 | the reference last title exists exactly when some line is a title line, and is the last one's |
| LatexService.RunAppend | backend/services/latex_service.py:162 | running the loop over `a + b` is running it over `a`, then over `b` |
| LatexService.RunWithinSection | backend/services/latex_service.py:179-181 | without headings the open section stays open, its accumulator grows by the body lines, and no section entry changes |
| LatexService.RunOutsideSection | backend/services/latex_service.py:180 | before any heading, lines change nothing but the title |
| LatexService.RunIgnoresTitle | backend/services/latex_service.py:166-168 | the title entry never influences the sections |
| LatexService.RunTitle | backend/services/latex_service.py:166-168 | after a run the title is the last title seen, or the earlier one if none was seen |
| LatexService.BodyLinesFilter | backend/services/latex_service.py:179-181 | the collected lines are the stripped body lines, in order |
| LatexService.KnownHeadingsOf | backend/services/latex_service.py:171-172 | every heading opens a section of the table |
| LatexService.ParseTitle | backend/services/latex_service.py:166-168 | on classified lines: a title exactly when some line is a title line, and then the last one's |
| LatexService.NoTitleLineNoTitle | backend/services/latex_service.py:166-168 | a parse without a title comes from text without title lines |
| LatexService.LastTitleWins | backend/services/latex_service.py:166-168 | a parsed title is the title text of the last title line |
| LatexService.LastBlockWins | backend/services/latex_service.py:171-185 | a heading flushes the block before it; its section gets the following body lines, replacing any earlier body if there are any |
| LatexService.UpdateBesideTitle | backend/services/latex_service.py:174 | storing a section does not touch the title entry |
| LatexService.DiscardedBeforeHeading | backend/services/latex_service.py:180 | lines before the first heading leave no trace other than titles |
| LatexService.NoHeadingNoSections | backend/services/latex_service.py:171-185 | text without a heading yields at most a title |
| LatexService.TitleBlock | backend/services/latex_service.py:135-139 | the title block as a definition; `AssemblySections` and `AssemblyOfParse` state when it appears and what it holds |
| LatexService.Present | backend/services/latex_service.py:147-148 | every key kept is held by the map |
| LatexService.SectionEntries | backend/services/latex_service.py:147-151 | the section entries in order; `SectionEntriesSpec`, `SectionEntriesCover` and `SectionEntriesOnly` state what they are |
| LatexService.Assembly | backend/services/latex_service.py:134-151 | everything the content step appends; `AssemblySections` and `AssemblyOfParse` state what it holds |
| LatexService.SectionEntriesExtend | backend/services/latex_service.py:147-151 | one more key in the order appends one more section exactly when the map holds it |
| LatexService.PresentSpec | backend/services/latex_service.py:147-148 | the keys kept are exactly those both listed and held |
| LatexService.PresentOrdered | backend/services/latex_service.py:147 | the kept keys stay in list order |
| LatexService.PresentDistinct | backend/services/latex_service.py:142-148 | a list without repetitions keeps no key twice |
| LatexService.SectionEntriesSpec | backend/services/latex_service.py:147-151 | the section entries are the labelled sections of the kept keys, in order |
| LatexService.SectionEntriesCover | backend/services/latex_service.py:147-151 | every listed key the map holds yields its labelled section |
| LatexService.SectionEntriesOnly | backend/services/latex_service.py:147-151 | every section entry comes from a listed key the map holds |
| LatexService.SectionEntriesDistinct | backend/services/latex_service.py:147-151 | with distinct labels, no section entry is repeated |
| LatexService.AssemblySections | backend/services/latex_service.py:128-151 | for a parsed-shape map: a title block, with the default author, exactly when there is a title; every section once, labelled, in emission order, nothing else |
| LatexService.AssemblyOfParse | backend/services/latex_service.py:128-187 | on parsed text: a title block exactly when the parse has a title, the author always the default, and every parsed section appears exactly once, labelled, in the fixed section order, with nothing else |
| LatexService.Document.constructor | backend/services/latex_service.py:102 | a new document has no content entries |
| LatexService.Document.AddContent | backend/services/latex_service.py:128-151 | appends exactly the title block and the section entries of the parse of the text |
| LatexService.Document.AddSections | backend/services/latex_service.py:147-151 | the loop appends the labelled section of every held key, in order |
| FileService.ExtensionSetsDisjoint | backend/services/file_service.py:19-24 | four categories whose extension sets are pairwise disjoint |
| FileService.GetFileExtension | backend/services/file_service.py:108-110 | the extension; `ExtensionOfJoin`, `ExtensionSpec` and `ExtensionIgnoresCase` state its meaning |
| FileService.ExtensionOfJoin | backend/services/file_service.py:108-110 | the extension of `stem.e`, for `e` without '.', is `e` lower-cased, whatever the stem holds |
| FileService.ExtensionSpec | backend/services/file_service.py:108-110 | a name without '.' has the empty extension; no extension holds a '.' |
| FileService.ExtensionExamples | backend/services/file_service.py:108-110 | `file.` gives `''`, `a.tar.GZ` gives `gz`, `README` gives `''` |
| FileService.ExtensionIgnoresCase | backend/services/file_service.py:108-110 | under the modelled case tables, an upper-cased name has the same extension |
| FileService.UnionOf | backend/services/file_service.py:102-104 | the union of the category sets; `UnionOfSpec` states its meaning |
| FileService.Allowed | backend/services/file_service.py:96-106 | the decision of `_is_allowed_file` as a definition; `UnionOfSpec`, `IsAllowedFile` and `AllowedIgnoresCase` state its meaning |
| FileService.UnionOfSpec | backend/services/file_service.py:102-104 | an extension is in the union exactly when some category's set holds it |
| FileService.IsAllowedFile | backend/services/file_service.py:96-106 | false for the empty name; otherwise true exactly when some category's set holds the extension |
| FileService.FirstCategory | backend/services/file_service.py:114-117 | the first-match search; `FirstCategorySpec` states its meaning |
| FileService.FirstCategorySpec | backend/services/file_service.py:112-117 | the key of the first set holding the extension, else `other` |
| FileService.GetFileCategory | backend/services/file_service.py:112-117 | the result is always one of the four categories |
| FileService.CategoryOfAllowed | backend/services/file_service.py:112-117 | an allowed extension is filed under the one category whose set holds it |
| FileService.CategoryOfUnknown | backend/services/file_service.py:112-117 | an extension of no category is filed under `other` |
| FileService.AllowedIgnoresCase | backend/services/file_service.py:101-110 | under the modelled case tables, an upper-cased name is allowed and categorised exactly as the name itself |
| FileService.UpperCaseImage | backend/services/file_service.py:101-110 | `PHOTO.JPG` is allowed and filed under `images` |
| FileService.PlanUpload | backend/services/file_service.py:48-63 | the checks and path layout of an upload; `PlanUploadSpec` states its meaning |
| FileService.PlanUploadSpec | backend/services/file_service.py:48-79 | refused exactly when there is no name or the type is not allowed; otherwise the path is `folder/category/hex_name` and the recorded type is that category |
| FileService.UploadFolder.constructor | backend/services/file_service.py:28-34 | afterwards the folder and one directory per category exist; directories and files from an earlier run are kept |
| FileService.UploadFolder.SaveUploadedFile | backend/services/file_service.py:36-94 | a refusal stores nothing; otherwise exactly the upload's bytes are stored under the planned path, inside an existing category directory |
| FileService.CategoryDirsHold | backend/services/file_service.py:28-34 | every category has its directory among those created |
| FileService.CategoryDirs | backend/services/file_service.py:31-34 | the category directories the constructor loop creates, as a definition; `CategoryDirsHold` states its meaning |
| LlmService.FileContextOf | backend/services/llm_service.py:107-117 | the record for one file; `FileContextSpec`, `FileContextIgnoresOtherKeys` and `ExtractedTextWins` state its meaning |
| LlmService.FileContextSpec | backend/services/llm_service.py:107-117 | defaults `unknown`, `unknown`, 0; the content is the extracted text, else the content, else absent |
| LlmService.FileContextIgnoresOtherKeys | backend/services/llm_service.py:107-117 | fields other than the five read make no difference |
| LlmService.ExtractedTextWins | backend/services/llm_service.py:114-117 | with extracted text present, a `content` field changes nothing |
| LlmService.PrepareInputContext | backend/services/llm_service.py:96-121 | one record per file, same order; metadata passed through; `experiment_type`, `date` and `author` default to `unknown` |
| LlmService.Clean | backend/services/llm_service.py:181-182 | the two removals in order; `ValidateSpec` and `CleanUnchanged` state their effect |
| LlmService.MissingSections | backend/services/llm_service.py:185-188 | the sections warned about; `MissingSectionsSpec` and `SectionFoundInAnyCase` state its meaning |
| LlmService.ValidateGeneratedContent | backend/services/llm_service.py:173-190 | the validation; `ValidateSpec` states its meaning |
| LlmService.MissingSectionsSpec | backend/services/llm_service.py:185-188 | a section is warned about exactly when it is listed and missing from the upper-cased text |
| LlmService.ValidateSpec | backend/services/llm_service.py:173-190 | refused exactly under 100 characters; otherwise both phrases removed, never longer; warnings never refuse or change the text |
| LlmService.CleanUnchanged | backend/services/llm_service.py:181-182 | text without either phrase is returned unchanged |
| LlmService.SectionFoundInAnyCase | backend/services/llm_service.py:187 | a heading in any letter case counts as present |

## Left out

- PDF compilation, the preamble and packages, templates and file cleanup in the LaTeX service. They are subprocess and file-system work.
- `create_document` is not modelled. It wraps the modelled steps in file I/O.
- `LatexService.Document.constructor`: the geometry options and packages of latex_service.py:94-114 are left out. So are the five page-style, header and footer commands of latex_service.py:117-121, so `entries` holds only what `_add_content_to_document` appends.
- `LatexService.Document`: pylatex rendering is not modelled. Entries are abstract values, and `NoEscape` text is kept verbatim.
- The image, document and data processors that `save_uploaded_file` calls after saving. They are foreign libraries (PIL, PyPDF2, python-docx, pandas).
- `get_file_content`, `delete_file` and `cleanup_old_files` are not modelled. They are file-system operations.
- `FileService.PlanUpload`: `secure_filename` and the UUID are inputs.
  - The second UUID for `id` is left out, since it is random.
  - `size`, `mime_type` and `created_at` are left out. They come from `stat` and `mimetypes`.
  - Path joining is string concatenation with `/`. There is no normalisation.
- `FileService.UploadFolder.constructor`: creating a directory cannot fail. In the code `mkdir` raises when the parent folder is missing or a plain file has the name.
- `FileService.UploadFolder.SaveUploadedFile`: the file system is a map from path to bytes.
  - A save to an existing path overwrites it.
  - The log line and the re-raise of other exceptions are left out.
- `_ensure_model_available`, `generate_protocol_content`, `refine_section` and `is_available` are not modelled. They are network calls to the model server.
- `_create_protocol_prompt` is Jinja templating, and `_create_fallback_content` is string formatting. Neither is modelled.
- `LlmService.PrepareInputContext`: field values are text, whole numbers or an opaque other value. Floats, lists and nested objects are not told apart.
- `LlmService.ValidateGeneratedContent`: the warnings are returned as a list instead of being logged.
  - The removal makes one pass, like `replace`. Joining the text around a removed phrase can form that phrase again, and the model does not promise the output is free of it.
- `Strings.Upper`, `Strings.Lower`: only two ranges are case-mapped, one character to one character.
  - `Upper` maps `a`-`z` and `à`-`þ` (except `÷`). `Lower` maps `A`-`Z` and `À`-`Þ` (except `×`).
  - Every other character is left unchanged. That includes the Latin-1 letters `µ` and `ÿ`, which Python upper-cases to `Μ` (U+039C) and `Ÿ` (U+0178).
  - It also includes letters outside Latin-1 that Python upper-cases to ASCII: `ı` to `I`, `ſ` to `S`, `ﬁ` to `FI`.
  - Greek, Cyrillic and the other scripts are not case-mapped, and `İ` is not lowered to two characters.
  - `ß` keeps its form, where Python's `upper()` gives `SS`. So `Schlußfolgerung` is a `schlussfolgerung` heading in the code, because its upper-case form contains `SCHLUSS`. In the model, `IdentifySection` finds no section for it.
- `Strings.LowerUpperChar` holds under the modelled case tables only. In Python, `'µ'.upper().lower()` is `'μ'` (U+03BC) and `'ı'.upper().lower()` is `'i'`, while `'µ'.lower()` and `'ı'.lower()` leave those characters as they are.
- `Strings.LowerOfUpper` holds under the modelled case tables only. In Python it fails for `"µ"` and `"ı"` as above, and for `"ß"`, whose `upper().lower()` is `"ss"`.
- `Strings.Capitalize` holds under the modelled case tables only. Python title-cases the first character and can change the length: `'ßx'.capitalize()` is `'Ssx'`, and `'ǆx'.capitalize()` is `'ǅx'`, not `'Ǆx'`.
- `Strings.LastDotOfUpper` holds under the modelled case tables only. In Python `'ß.a'.upper()` is `'SS.A'`, so the last '.' moves from index 1 to index 2.
- `FileService.ExtensionIgnoresCase` holds under the modelled case tables only. In Python `'a.tıff'` has the extension `tıff` but `'A.TIFF'` has `tiff`, and `'x.ß'` has `ß` but `'X.SS'` has `ss`. For names in ASCII it holds in Python too.
- `FileService.AllowedIgnoresCase` holds under the modelled case tables only. In Python `'a.tıff'` is refused but its upper-cased form `'A.TIFF'` is allowed as an image. For names in ASCII it holds in Python too.
- `Strings.IsSpace` lists the code points for which Python's `isspace()` holds. It is written out, not derived from the Unicode database.
- The HTTP routes, the database, OCR and the front end are not part of this model.
