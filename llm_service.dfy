/**
 * The input and output shaping around the language-model call: the context
 * record built from the uploaded files' records and the protocol metadata, and
 * the validation and clean-up of the generated text. The model call itself and
 * the prompt templating are not part of this module.
 */
module LlmService {
  import opened Wrappers
  import opened Strings

  /** A value of a record field, as far as the context cares: text, a whole number, or anything else. */
  datatype Value = Text(text: string) | Number(number: int) | Other(description: string)

  /** A record with string keys, as the file and metadata dictionaries are. */
  type Record = map<string, Value>

  /** `record.get(key, default)`. */
  function Get(record: Record, key: string, default: Value): Value
  {
    if key in record then record[key] else default
  }

  /** The default of every missing text field. */
  const Unknown: Value := Text("unknown")

  /** The default of a missing size. */
  const NoSize: Value := Number(0)

  /** The keys of a file record that the context reads. */
  const FileKeys: set<string> := {"name", "type", "size", "extracted_text", "content"}

  /** One file as the model sees it; `content` is absent when the record had no text. */
  datatype FileContext = FileContext(name: Value, kind: Value, size: Value, content: Option<Value>)

  /** The context handed to the prompt template. */
  datatype Context = Context(files: seq<FileContext>, metadata: Record, experimentType: Value, date: Value, author: Value)

  /** The record built for one file: name, type and size with their defaults, and the text if there is one. */
  function FileContextOf(info: Record): FileContext
  {
    var content :=
      if "extracted_text" in info then Some(info["extracted_text"])
      else if "content" in info then Some(info["content"])
      else None;
    FileContext(Get(info, "name", Unknown), Get(info, "type", Unknown), Get(info, "size", NoSize), content)
  }

  /**
   * Missing name and type become `unknown` and a missing size 0; the text is the
   * extracted text when there is one, the plain content otherwise, and absent when
   * the record has neither.
   */
  lemma FileContextSpec(info: Record)
    ensures var f := FileContextOf(info);
            && (f.name == if "name" in info then info["name"] else Text("unknown"))
            && (f.kind == if "type" in info then info["type"] else Text("unknown"))
            && (f.size == if "size" in info then info["size"] else Number(0))
    ensures "extracted_text" in info ==> FileContextOf(info).content == Some(info["extracted_text"])
    ensures "extracted_text" !in info && "content" in info ==> FileContextOf(info).content == Some(info["content"])
    ensures FileContextOf(info).content.None? <==> "extracted_text" !in info && "content" !in info
  {
  }

  /** Fields other than the five the context reads make no difference. */
  lemma FileContextIgnoresOtherKeys(info: Record, key: string, v: Value)
    requires key !in FileKeys
    ensures FileContextOf(info[key := v]) == FileContextOf(info)
  {
  }

  /** Extracted text takes precedence: adding a `content` field to a record that has one changes nothing. */
  lemma ExtractedTextWins(info: Record, v: Value)
    requires "extracted_text" in info
    ensures FileContextOf(info["content" := v]) == FileContextOf(info)
  {
  }

  /**
   * `_prepare_input_context`: start from the metadata fields with their defaults
   * and append one file record per input file, in input order.
   */
  method PrepareInputContext(files: seq<Record>, metadata: Record) returns (context: Context)
    ensures |context.files| == |files|
    ensures forall i :: 0 <= i < |files| ==> context.files[i] == FileContextOf(files[i])
    ensures context.metadata == metadata
    ensures context.experimentType == if "experiment_type" in metadata then metadata["experiment_type"] else Text("unknown")
    ensures context.date == if "date" in metadata then metadata["date"] else Text("unknown")
    ensures context.author == if "author" in metadata then metadata["author"] else Text("unknown")
  {
    context := Context([], metadata, Get(metadata, "experiment_type", Unknown),
                       Get(metadata, "date", Unknown), Get(metadata, "author", Unknown));
    for i := 0 to |files|
      invariant |context.files| == i
      invariant forall j :: 0 <= j < i ==> context.files[j] == FileContextOf(files[j])
      invariant context.metadata == metadata
      invariant context.experimentType == Get(metadata, "experiment_type", Unknown)
      invariant context.date == Get(metadata, "date", Unknown)
      invariant context.author == Get(metadata, "author", Unknown)
    {
      var fileInfo := files[i];
      var fileContext := FileContext(Get(fileInfo, "name", Unknown), Get(fileInfo, "type", Unknown),
                                     Get(fileInfo, "size", NoSize), None);
      if "extracted_text" in fileInfo {
        fileContext := fileContext.(content := Some(fileInfo["extracted_text"]));
      } else if "content" in fileInfo {
        fileContext := fileContext.(content := Some(fileInfo["content"]));
      }
      context := context.(files := context.files + [fileContext]);
    }
  }

  // ---------------------------------------------------------------------------
  // Validation of the generated text
  // ---------------------------------------------------------------------------

  /** Outputs shorter than this are refused. */
  const MinLength: nat := 100

  /** The two phrases removed from the output, in the order they are removed. */
  const AssistantPhrase: string := "Als KI-Assistent"
  const RefusalPhrase: string := "Ich kann nicht"

  /** The sections whose absence from the upper-cased output is logged. */
  const RequiredSections: seq<string> := ["ZIELSETZUNG", "DURCHFÜHRUNG", "ERGEBNISSE"]

  /** The clean-up: every occurrence of the first phrase removed, then every occurrence of the second. */
  function Clean(content: string): string
  {
    RemoveAll(RemoveAll(content, AssistantPhrase), RefusalPhrase)
  }

  /** The required sections that do not occur in the upper-cased text, in their fixed order. */
  function MissingSections(sections: seq<string>, content: string): seq<string>
  {
    if sections == [] then []
    else (if Contains(Upper(content), sections[0]) then [] else [sections[0]]) + MissingSections(sections[1..], content)
  }

  /** What a successful validation yields: the cleaned text and the sections it warns about. */
  datatype Validated = Validated(content: string, warnings: seq<string>)

  /** The only refusal. */
  const TooShort: string := "Generierter Inhalt zu kurz"

  /** `_validate_generated_content`: refuse short output, clean it, and report missing sections. */
  function ValidateGeneratedContent(content: string): Result<Validated, string>
  {
    if content == "" || |content| < MinLength then Failure(TooShort)
    else
      var cleaned := Clean(content);
      Success(Validated(cleaned, MissingSections(RequiredSections, cleaned)))
  }

  /** A section is warned about exactly when it is one of the list and missing from the upper-cased text. */
  lemma {:induction false} MissingSectionsSpec(sections: seq<string>, content: string, s: string)
    ensures s in MissingSections(sections, content) <==> s in sections && !Contains(Upper(content), s)
    decreases |sections|
  {
    if sections != [] {
      MissingSectionsSpec(sections[1..], content, s);
      assert sections == [sections[0]] + sections[1..];
    }
  }

  /**
   * Validation refuses exactly the texts shorter than 100 characters. Otherwise it
   * returns the text with both phrases removed, never longer than the input, and
   * warns exactly about the required sections missing from the cleaned text; the
   * warnings never turn into a refusal and never change the returned text.
   */
  lemma ValidateSpec(content: string)
    ensures ValidateGeneratedContent(content).Failure? <==> |content| < MinLength
    ensures ValidateGeneratedContent(content).Failure? ==> ValidateGeneratedContent(content).error == TooShort
    ensures var r := ValidateGeneratedContent(content);
            r.Success? ==> r.value.content == Clean(content) && |r.value.content| <= |content|
    ensures var r := ValidateGeneratedContent(content);
            r.Success? ==> forall s :: s in r.value.warnings <==> s in RequiredSections && !Contains(Upper(Clean(content)), s)
  {
    if |content| >= MinLength {
      forall s
        ensures s in MissingSections(RequiredSections, Clean(content)) <==> s in RequiredSections && !Contains(Upper(Clean(content)), s)
      {
        MissingSectionsSpec(RequiredSections, Clean(content), s);
      }
    }
  }

  /** Text without either phrase passes through validation unchanged. */
  lemma CleanUnchanged(content: string)
    requires !Contains(content, AssistantPhrase) && !Contains(content, RefusalPhrase)
    ensures Clean(content) == content
  {
    RemoveAllUnchanged(content, AssistantPhrase);
    RemoveAllUnchanged(content, RefusalPhrase);
  }

  /** Headings are matched in any letter case: a text containing a heading is never warned about its upper-cased form. */
  lemma SectionFoundInAnyCase(sections: seq<string>, content: string, heading: string)
    requires Contains(content, heading)
    ensures Upper(heading) !in MissingSections(sections, content)
  {
    var s := Upper(heading);
    MissingSectionsSpec(sections, content, s);
    ContainsSpec(content, heading);
    var k :| 0 <= k <= |content| && StartsWith(content[k..], heading);
    UpperStartsWith(content[k..], heading);
    assert Upper(content)[k..] == Upper(content[k..]);
    ContainsSpec(Upper(content), s);
  }
}
