/**
 The customization store: a tree of text files, and the entries it is parsed
 into (`src/customization/model.ts`, `src/customization/backend.ts`).
 */
module CustomizationModel {
  import opened Options
  import opened JsText
  import opened Frontmatter
  import Json

  datatype Author = Author(name: Text, at: Text)

  /** The stored files by path, and who last changed each path. */
  datatype Tree = Tree(files: map<Text, Text>, authors: map<Text, Author>)

  datatype InstructionEntry = InstructionEntry(text: Text, author: Option<Author>)

  datatype PromptEntry = PromptEntry(title: Option<Text>, description: Text, text: Text, author: Option<Author>)

  datatype SkillEntry = SkillEntry(description: Text, files: map<Text, Text>, author: Option<Author>)

  /** What every session is served from; `ignored` holds the paths no entry explains. */
  datatype Customizations = Customizations(
    instructions: map<Text, InstructionEntry>,
    prompts: map<Text, PromptEntry>,
    skills: map<Text, SkillEntry>,
    ignored: set<Text>)

  const INSTRUCTIONS: Text := [105, 110, 115, 116, 114, 117, 99, 116, 105, 111, 110, 115]  // "instructions"
  const PROMPTS: Text := [112, 114, 111, 109, 112, 116, 115]  // "prompts"
  const SKILLS: Text := [115, 107, 105, 108, 108, 115]  // "skills"
  const MARKDOWN: Text := [46, 109, 100]  // ".md"
  const SKILL_ENTRY_FILE: Text := [83, 75, 73, 76, 76, 46, 109, 100]  // "SKILL.md"
  const NAME: Text := [110, 97, 109, 101]  // "name"
  const TITLE: Text := [116, 105, 116, 108, 101]  // "title"
  const DESCRIPTION: Text := [100, 101, 115, 99, 114, 105, 112, 116, 105, 111, 110]  // "description"

  const SCOPE_GLOBAL: Text := [103, 108, 111, 98, 97, 108]  // "global"
  const SCOPE_TICKETS: Text := [116, 105, 99, 107, 101, 116, 115]  // "tickets"
  const SCOPE_HELP_CENTER: Text := [104, 101, 108, 112, 95, 99, 101, 110, 116, 101, 114]  // "help_center"
  const SCOPE_USERS: Text := [117, 115, 101, 114, 115]  // "users"
  const SCOPE_REQUESTS: Text := [114, 101, 113, 117, 101, 115, 116, 115]  // "requests"
  const SCOPE_PREFERENCES: Text := [112, 114, 101, 102, 101, 114, 101, 110, 99, 101, 115]  // "preferences"

  const SCOPES: seq<Text> :=
    [SCOPE_GLOBAL, SCOPE_TICKETS, SCOPE_HELP_CENTER, SCOPE_USERS, SCOPE_REQUESTS, SCOPE_PREFERENCES]

  // ----- Paths ---------------------------------------------------------------

  predicate IsNameUnit(u: CodeUnit) { IsLower(u) || IsDigit(u) || u == DASH }

  /** Lower-case letters and digits in runs joined by single hyphens. */
  predicate IsName(t: Text) {
    && t != [] && t[0] != DASH && t[|t| - 1] != DASH
    && (forall u :: u in t ==> IsNameUnit(u))
    && (forall i :: 0 < i < |t| && t[i] == DASH ==> t[i - 1] != DASH)
  }

  /** Which entry a path belongs to. */
  datatype Place = Instruction(scope: Text) | Prompt(name: Text) | SkillFile(name: Text, file: Text) | Nowhere

  predicate ValidPlace(place: Place) {
    match place
    case Instruction(scope) => scope in SCOPES
    case Prompt(name) => IsName(name)
    case SkillFile(name, _) => IsName(name)
    case Nowhere => false
  }

  function PathOf(place: Place): Text
    requires ValidPlace(place)
  {
    match place
    case Instruction(scope) => INSTRUCTIONS + [SLASH] + (scope + MARKDOWN)
    case Prompt(name) => PROMPTS + [SLASH] + (name + MARKDOWN)
    case SkillFile(name, file) => SKILLS + [SLASH] + (name + [SLASH] + file)
  }

  /** The name before `.md`; empty when there is no such ending. */
  function Stem(name: Text): (stem: Text)
    ensures stem != [] ==> stem + MARKDOWN == name
  {
    if |name| >= 3 && name[|name| - 3..] == MARKDOWN then
      assert name == name[..|name| - 3] + name[|name| - 3..];
      name[..|name| - 3]
    else []
  }

  /** The place a path names, read off its `/`-separated parts. */
  function Classify(path: Text): Place {
    var parts := Split(path, SLASH);
    if |parts| == 2 && parts[0] == INSTRUCTIONS && Stem(parts[1]) in SCOPES then Instruction(Stem(parts[1]))
    else if |parts| == 2 && parts[0] == PROMPTS && IsName(Stem(parts[1])) then Prompt(Stem(parts[1]))
    else if |parts| >= 3 && parts[0] == SKILLS && IsName(parts[1]) then SkillFile(parts[1], Join(parts[2..], SLASH))
    else Nowhere
  }

  lemma {:induction false} StemOf(name: Text)
    ensures Stem(name + MARKDOWN) == name
  {
    var t := name + MARKDOWN;
    assert t[|t| - 3..] == MARKDOWN && t[..|t| - 3] == name;
  }

  lemma {:induction false} NoSlash(name: Text)
    requires name in SCOPES || IsName(name)
    ensures SLASH !in name && SLASH !in name + MARKDOWN && name != []
  {
  }

  /** Every entry is found at its own path. */
  lemma {:induction false} ClassifyPath(place: Place)
    requires ValidPlace(place)
    ensures Classify(PathOf(place)) == place
  {
    match place
    case Instruction(scope) =>
      NoSlash(scope);
      StemOf(scope);
      SplitCons(INSTRUCTIONS, scope + MARKDOWN, SLASH);
      SplitSingle(scope + MARKDOWN, SLASH);
    case Prompt(name) =>
      NoSlash(name);
      StemOf(name);
      SplitCons(PROMPTS, name + MARKDOWN, SLASH);
      SplitSingle(name + MARKDOWN, SLASH);
    case SkillFile(name, file) =>
      NoSlash(name);
      SplitCons(SKILLS, name + [SLASH] + file, SLASH);
      SplitCons(name, file, SLASH);
      JoinSplit(file, SLASH);
      var parts := Split(PathOf(place), SLASH);
      assert parts == [SKILLS, name] + Split(file, SLASH);
      assert parts[2..] == Split(file, SLASH);
  }

  /** And no other path leads to it. */
  lemma {:induction false} PathClassified(path: Text)
    requires Classify(path) != Nowhere
    ensures ValidPlace(Classify(path)) && PathOf(Classify(path)) == path
  {
    var parts := Split(path, SLASH);
    JoinSplit(path, SLASH);
    assert Join(parts[1..], SLASH) == if |parts| == 2 then parts[1] else parts[1] + [SLASH] + Join(parts[1..][1..], SLASH);
    if |parts| > 2 { assert parts[1..][1..] == parts[2..]; }
  }

  lemma {:induction false} PathInjective(a: Place, b: Place)
    requires ValidPlace(a) && ValidPlace(b) && PathOf(a) == PathOf(b)
    ensures a == b
  {
    ClassifyPath(a);
    ClassifyPath(b);
  }

  // ----- Entries -------------------------------------------------------------

  function AuthorOf(tree: Tree, path: Text): Option<Author> {
    if path in tree.authors then Some(tree.authors[path]) else None
  }

  function FieldOf(document: Document, key: Text): Option<Text> {
    if key in document.fields then Some(document.fields[key]) else None
  }

  /** A description the entry is served with: present and not empty. */
  function DescriptionIn(text: Text): Option<Text> {
    var description := FieldOf(Read(text), DESCRIPTION);
    if description == Some([]) then None else description
  }

  function PromptIn(text: Text, author: Option<Author>): Option<PromptEntry> {
    var description := DescriptionIn(text);
    if description.None? then None
    else Some(PromptEntry(FieldOf(Read(text), TITLE), description.value, Trim(Read(text).body), author))
  }

  function InstructionAt(tree: Tree, scope: Text): Option<InstructionEntry>
    requires scope in SCOPES
  {
    var path := PathOf(Instruction(scope));
    if path in tree.files && Trim(tree.files[path]) != [] then
      Some(InstructionEntry(Trim(tree.files[path]), AuthorOf(tree, path)))
    else None
  }

  function PromptAt(tree: Tree, name: Text): Option<PromptEntry> {
    if IsName(name) && PathOf(Prompt(name)) in tree.files then
      PromptIn(tree.files[PathOf(Prompt(name))], AuthorOf(tree, PathOf(Prompt(name))))
    else None
  }

  function SkillFilesAt(tree: Tree, name: Text): map<Text, Text> {
    var names := set p | p in tree.files && Classify(p).SkillFile? && Classify(p).name == name :: Classify(p).file;
    map f | f in names && IsName(name) && PathOf(SkillFile(name, f)) in tree.files :: tree.files[PathOf(SkillFile(name, f))]
  }

  function SkillAt(tree: Tree, name: Text): Option<SkillEntry> {
    var files := SkillFilesAt(tree, name);
    if IsName(name) && SKILL_ENTRY_FILE in files && DescriptionIn(files[SKILL_ENTRY_FILE]).Some?
       && PromptAt(tree, name).None? then
      Some(SkillEntry(DescriptionIn(files[SKILL_ENTRY_FILE]).value, files,
                      AuthorOf(tree, PathOf(SkillFile(name, SKILL_ENTRY_FILE)))))
    else None
  }

  /** Some entry explains the file at `path`. */
  predicate Explained(tree: Tree, path: Text) {
    match Classify(path)
    case Instruction(scope) => scope in SCOPES && InstructionAt(tree, scope).Some?
    case Prompt(name) => PromptAt(tree, name).Some?
    case SkillFile(name, _) => SkillAt(tree, name).Some?
    case Nowhere => false
  }

  /** Everything a tree serves, entry by entry. */
  function Parse(tree: Tree): Customizations {
    var promptNames := set p | p in tree.files && Classify(p).Prompt? :: Classify(p).name;
    var skillNames := set p | p in tree.files && Classify(p).SkillFile? :: Classify(p).name;
    Customizations(
      map s | s in SCOPES && InstructionAt(tree, s).Some? :: InstructionAt(tree, s).value,
      map n | n in promptNames && PromptAt(tree, n).Some? :: PromptAt(tree, n).value,
      map n | n in skillNames && SkillAt(tree, n).Some? :: SkillAt(tree, n).value,
      set p | p in tree.files && !Explained(tree, p))
  }

  lemma {:induction false} SkillFileIn(tree: Tree, name: Text, file: Text)
    requires IsName(name)
    ensures file in SkillFilesAt(tree, name) <==> PathOf(SkillFile(name, file)) in tree.files
  {
    var path := PathOf(SkillFile(name, file));
    ClassifyPath(SkillFile(name, file));
    if path in tree.files {
      assert Classify(path).SkillFile? && Classify(path).name == name && Classify(path).file == file;
    }
  }

  lemma {:induction false} PromptParsed(tree: Tree, name: Text)
    ensures name in Parse(tree).prompts <==> PromptAt(tree, name).Some?
    ensures name in Parse(tree).prompts ==> Parse(tree).prompts[name] == PromptAt(tree, name).value
  {
    if PromptAt(tree, name).Some? {
      ClassifyPath(Prompt(name));
      assert Classify(PathOf(Prompt(name))).Prompt? && Classify(PathOf(Prompt(name))).name == name;
    }
  }

  lemma {:induction false} SkillParsed(tree: Tree, name: Text)
    ensures name in Parse(tree).skills <==> SkillAt(tree, name).Some?
    ensures name in Parse(tree).skills ==> Parse(tree).skills[name] == SkillAt(tree, name).value
  {
    if SkillAt(tree, name).Some? {
      SkillFileIn(tree, name, SKILL_ENTRY_FILE);
      ClassifyPath(SkillFile(name, SKILL_ENTRY_FILE));
      var path := PathOf(SkillFile(name, SKILL_ENTRY_FILE));
      assert Classify(path).SkillFile? && Classify(path).name == name;
    }
  }

  /** One name space: no name is served both as a prompt and as a skill. */
  lemma {:induction false} NamesDisjoint(tree: Tree)
    ensures Parse(tree).prompts.Keys !! Parse(tree).skills.Keys
  {
    forall n | n in Parse(tree).prompts && n in Parse(tree).skills ensures false {
      PromptParsed(tree, n);
      SkillParsed(tree, n);
    }
  }
}
