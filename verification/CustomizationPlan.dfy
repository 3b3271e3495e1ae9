/**
 Edits of the customization store: the file changes an edit makes, and the
 abstract update it stands for (`planEdit` in `src/customization/model.ts`), and the
 change loop of the memory store (`src/customization/backend.ts`).
 */
module CustomizationPlan {
  import opened Options
  import opened JsText
  import opened Frontmatter
  import opened CustomizationModel
  import Json

  const INSTRUCTION_MAX_CHARS := 4000
  const INSTRUCTIONS_TOTAL_MAX_CHARS := 12_000
  const PROMPT_MAX_CHARS := 32_000
  const SKILL_FILE_MAX_CHARS := 64_000
  const SKILL_MAX_FILES := 32
  const SKILL_TOTAL_MAX_CHARS := 256_000
  const NAME_MAX := 64
  const PATH_MAX_DEPTH := 4

  datatype FileChange = FileChange(path: Text, content: Option<Text>)

  datatype PromptText = PromptText(title: Option<Text>, description: Text, text: Text)

  datatype Edit =
    | EditInstructions(scope: Text, text: Option<Text>)
    | EditPrompt(name: Text, prompt: Option<PromptText>)
    | EditSkill(name: Text, path: Option<Text>, text: Option<Text>)

  datatype PlanError =
    | NotSet | EmptyText | TooLong | TotalTooLong | InvalidName | InvalidPath | NameTaken
    | NoDescription | NoEntryFile | WrongName | TooManyFiles

  // ----- Plans ------------------------------------------------------------------

  function TextLength(c: Customizations, scope: Text): nat {
    if scope in c.instructions then |c.instructions[scope].text| else 0
  }

  /** The length of all instructions once `scope` holds `length` characters. */
  function InstructionsTotal(c: Customizations, scopes: seq<Text>, scope: Text, length: nat): nat {
    if scopes == [] then length
    else (if scopes[0] == scope then 0 else TextLength(c, scopes[0])) + InstructionsTotal(c, scopes[1..], scope, length)
  }

  function PlanInstructions(current: Customizations, scope: Text, text: Option<Text>): Result<seq<FileChange>, PlanError>
    requires scope in SCOPES
  {
    var path := PathOf(Instruction(scope));
    if text.None? then
      if scope in current.instructions then Ok([FileChange(path, None)]) else Err(NotSet)
    else
      var trimmed := Trim(text.value);
      if trimmed == [] then Err(EmptyText)
      else if |trimmed| > INSTRUCTION_MAX_CHARS then Err(TooLong)
      else if InstructionsTotal(current, SCOPES, scope, |trimmed|) > INSTRUCTIONS_TOTAL_MAX_CHARS then Err(TotalTooLong)
      else Ok([FileChange(path, Some(trimmed + [LF]))])
  }

  function FieldLine(key: Text, value: Text): Text {
    key + [COLON, SPACE] + Json.Stringify(value)
  }

  function Header(title: Option<Text>, description: Text): Text {
    if title.None? then FieldLine(DESCRIPTION, description)
    else FieldLine(TITLE, title.value) + [LF] + FieldLine(DESCRIPTION, description)
  }

  /** The file a prompt is stored as. */
  function PrintPrompt(title: Option<Text>, description: Text, text: Text): Text {
    DASHES + [LF] + (Header(title, description) + ([LF] + DASHES + ([LF] + ([LF] + text + [LF]))))
  }

  /** The trimmed title; an empty one is no title. */
  function TitleOf(prompt: PromptText): Option<Text> {
    if prompt.title.Some? && Trim(prompt.title.value) != [] then Some(Trim(prompt.title.value)) else None
  }

  predicate CheckedName(name: Text) { |name| <= NAME_MAX && IsName(name) }

  function PlanPrompt(current: Customizations, name: Text, prompt: Option<PromptText>): Result<seq<FileChange>, PlanError> {
    if !CheckedName(name) then Err(InvalidName)
    else if prompt.None? then
      if name in current.prompts then Ok([FileChange(PathOf(Prompt(name)), None)]) else Err(NotSet)
    else if name in current.skills then Err(NameTaken)
    else
      var description, text := Trim(prompt.value.description), Trim(prompt.value.text);
      if description == [] || LF in description then Err(NoDescription)
      else if text == [] then Err(EmptyText)
      else if |text| > PROMPT_MAX_CHARS then Err(TooLong)
      else Ok([FileChange(PathOf(Prompt(name)), Some(PrintPrompt(TitleOf(prompt.value), description, text)))])
  }

  predicate IsSegment(s: Text) {
    && s != []
    && (IsLower(s[0]) || IsUpper(s[0]) || IsDigit(s[0]) || s[0] == UNDERSCORE)
    && forall u :: u in s ==> IsLower(u) || IsUpper(u) || IsDigit(u) || u == UNDERSCORE || u == DOT || u == DASH
  }

  predicate CheckedPath(path: Text) {
    var segments := Split(path, SLASH);
    |segments| <= PATH_MAX_DEPTH && forall s :: s in segments ==> IsSegment(s)
  }

  /** The YAML block scalar indicators a description may not be. */
  predicate IsBlockScalar(t: Text) { t == [62] || t == [124] || t == [62, DASH] || t == [124, DASH] }

  function CheckSkillEntry(name: Text, text: Text): Option<PlanError> {
    var document := Read(text);
    var description := DescriptionIn(text);
    if FieldOf(document, NAME) != Some(name) then Some(WrongName)
    else if description.None? || IsBlockScalar(description.value) then Some(NoDescription)
    else if Trim(document.body) == [] then Some(EmptyText)
    else None
  }

  function Removals(name: Text, files: seq<Text>): seq<FileChange>
    requires IsName(name)
  {
    seq(|files|, i requires 0 <= i < |files| => FileChange(PathOf(SkillFile(name, files[i])), None))
  }

  /** The characters of all files together. */
  ghost function TotalLength(files: map<Text, Text>): nat
    decreases |files|
  {
    if files == map[] then 0
    else
      var f :| f in files;
      |files[f]| + TotalLength(files - {f})
  }

  /** A skill edit without a path is about its entry file. */
  function FileOf(path: Option<Text>): Text { if path.Some? then path.value else SKILL_ENTRY_FILE }

  /** `listing` is the order in which the skill's own files are walked when all of them go. */
  ghost function PlanSkill(
    current: Customizations, name: Text, path: Option<Text>, text: Option<Text>, listing: seq<Text>)
    : Result<seq<FileChange>, PlanError>
  {
    var file := FileOf(path);
    var existing := name in current.skills;
    if !CheckedName(name) then Err(InvalidName)
    else if !CheckedPath(file) then Err(InvalidPath)
    else if text.None? then
      if !existing then Err(NotSet)
      else if file == SKILL_ENTRY_FILE then Ok(Removals(name, listing))
      else if file !in current.skills[name].files then Err(NotSet)
      else Ok([FileChange(PathOf(SkillFile(name, file)), None)])
    else if name in current.prompts then Err(NameTaken)
    else if file == SKILL_ENTRY_FILE && CheckSkillEntry(name, text.value).Some? then
      Err(CheckSkillEntry(name, text.value).value)
    else if file != SKILL_ENTRY_FILE && !existing then Err(NoEntryFile)
    else if |text.value| > SKILL_FILE_MAX_CHARS then Err(TooLong)
    else
      var files := FilesWith(current, name, file, text.value);
      if |files| > SKILL_MAX_FILES then Err(TooManyFiles)
      else if TotalLength(files) > SKILL_TOTAL_MAX_CHARS then Err(TotalTooLong)
      else Ok([FileChange(PathOf(SkillFile(name, file)), text)])
  }

  function FilesWith(c: Customizations, name: Text, file: Text, text: Text): map<Text, Text> {
    (if name in c.skills then c.skills[name].files else map[])[file := text]
  }

  ghost function PlanEdit(current: Customizations, edit: Edit, listing: seq<Text>): Result<seq<FileChange>, PlanError>
    requires edit.EditInstructions? ==> edit.scope in SCOPES
  {
    match edit
    case EditInstructions(scope, text) => PlanInstructions(current, scope, text)
    case EditPrompt(name, prompt) => PlanPrompt(current, name, prompt)
    case EditSkill(name, path, text) => PlanSkill(current, name, path, text, listing)
  }

  // ----- The change-set loop -------------------------------------------------------

  /** One change, and its author recorded with it, as the memory backend does. */
  function ApplyChange(tree: Tree, change: FileChange, author: Author): Tree {
    if change.content.Some? then
      Tree(tree.files[change.path := change.content.value], tree.authors[change.path := author])
    else Tree(tree.files - {change.path}, tree.authors - {change.path})
  }

  function ApplyAll(tree: Tree, changes: seq<FileChange>, author: Author): Tree {
    if changes == [] then tree
    else ApplyChange(ApplyAll(tree, changes[..|changes| - 1], author), changes[|changes| - 1], author)
  }

  class MemoryBackend {
    var files: map<Text, Text>
    var authors: map<Text, Author>

    function Contents(): Tree
      reads this
    {
      Tree(files, authors)
    }

    constructor (seed: map<Text, Text>)
      ensures Contents() == Tree(seed, map[])
    {
      files, authors := seed, map[];
    }

    method Apply(changes: seq<FileChange>, author: Author)
      modifies this
      ensures Contents() == ApplyAll(old(Contents()), changes, author)
    {
      for i := 0 to |changes|
        invariant Contents() == ApplyAll(old(Contents()), changes[..i], author)
      {
        assert changes[..i + 1][..i] == changes[..i];
        var FileChange(path, content) := changes[i];
        if content.None? {
          files, authors := files - {path}, authors - {path};
        } else {
          files, authors := files[path := content.value], authors[path := author];
        }
      }
      assert changes[..|changes|] == changes;
    }
  }

  // ----- The abstract update ---------------------------------------------------------

  /** What an edit means for the entries, whatever files they live in. */
  function Update(c: Customizations, edit: Edit, author: Author): Customizations {
    match edit
    case EditInstructions(scope, text) =>
      if text.None? then c.(instructions := c.instructions - {scope})
      else c.(instructions := c.instructions[scope := InstructionEntry(Trim(text.value), Some(author))])
    case EditPrompt(name, prompt) =>
      if prompt.None? then c.(prompts := c.prompts - {name})
      else
        var p := prompt.value;
        c.(prompts := c.prompts[name := PromptEntry(TitleOf(p), Trim(p.description), Trim(p.text), Some(author))])
    case EditSkill(name, path, text) =>
      var file := FileOf(path);
      if text.None? then
        if file == SKILL_ENTRY_FILE || name !in c.skills then c.(skills := c.skills - {name})
        else c.(skills := c.skills[name := c.skills[name].(files := c.skills[name].files - {file})])
      else
        var files := FilesWith(c, name, file, text.value);
        if file == SKILL_ENTRY_FILE then
          var description := DescriptionIn(text.value);
          c.(skills := c.skills[name :=
            SkillEntry(if description.Some? then description.value else [], files, Some(author))])
        else if name in c.skills then c.(skills := c.skills[name := c.skills[name].(files := files)])
        else c
  }

  // ----- The prompt file round trip --------------------------------------------------

  lemma {:induction false} HeaderStaysClosed(title: Option<Text>, description: Text)
    ensures NoClosingInside(Header(title, description))
  {
    PrintedLine(DESCRIPTION, description);
    var second := FieldLine(DESCRIPTION, description);
    assert forall i :: 0 <= i < |second| ==> second[i] in second;
    if title.Some? {
      PrintedLine(TITLE, title.value);
      var first := FieldLine(TITLE, title.value);
      var header := first + [LF] + second;
      assert forall i :: 0 <= i < |first| ==> first[i] in first;
      assert forall i :: 0 <= i < |header| ==>
        header[i] == if i < |first| then first[i] else if i == |first| then LF else second[i - |first| - 1];
      assert second[0] == DESCRIPTION[0];
    }
  }

  lemma {:induction false} LastField(lines: seq<Text>, line: Text)
    requires LineField(line).Some?
    ensures FieldsOf(lines + [line]) == FieldsOf(lines)[LineField(line).value.0 := LineField(line).value.1]
  {
    assert (lines + [line])[..|lines|] == lines;
  }

  lemma {:induction false} HeaderLines(title: Option<Text>, description: Text)
    ensures var second := FieldLine(DESCRIPTION, description);
            SplitLines(Header(title, description))
            == if title.None? then [] + [second] else [FieldLine(TITLE, title.value)] + [second]
  {
    var second := FieldLine(DESCRIPTION, description);
    PrintedLine(DESCRIPTION, description);
    if title.None? {
      LinesOfOne(second);
    } else {
      PrintedLine(TITLE, title.value);
      LinesOfTwo(FieldLine(TITLE, title.value), second);
    }
  }

  lemma {:induction false} HeaderFields(title: Option<Text>, description: Text)
    ensures FieldsOf(SplitLines(Header(title, description)))
         == if title.None? then map[DESCRIPTION := description]
            else map[TITLE := title.value][DESCRIPTION := description]
  {
    HeaderLines(title, description);
    var second := FieldLine(DESCRIPTION, description);
    PrintedField(DESCRIPTION, description);
    var before: seq<Text> := if title.None? then [] else [FieldLine(TITLE, title.value)];
    LastField(before, second);
    if title.Some? {
      PrintedField(TITLE, title.value);
      var none: seq<Text> := [];
      LastField(none, FieldLine(TITLE, title.value));
      assert none + before == before;
    }
  }

  /**
   Parsing the file a prompt is stored as gives back its title, description and
   text, whatever quotes, colons, backslashes, newlines or `---` lines they hold.
   */
  lemma {:induction false} PromptFileRoundTrip(title: Option<Text>, description: Text, text: Text, author: Option<Author>)
    requires description != [] && text != [] && Trimmed(text)
    ensures PromptIn(PrintPrompt(title, description, text), author) == Some(PromptEntry(title, description, text, author))
  {
    hide Read, PrintPrompt;
    PrintedDocument(title, description, text);
    TrimPadded([LF], text, [LF]);
    assert |TITLE| != |DESCRIPTION|;
  }

  lemma {:induction false} PrintedDocument(title: Option<Text>, description: Text, text: Text)
    ensures Read(PrintPrompt(title, description, text))
         == Document(if title.None? then map[DESCRIPTION := description]
                     else map[TITLE := title.value][DESCRIPTION := description],
                     [LF] + text + [LF])
  {
    HeaderStaysClosed(title, description);
    PrintedBlock(Header(title, description), [LF] + text + [LF]);
    HeaderFields(title, description);
  }
}
