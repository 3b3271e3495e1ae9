/** The loops of `parseCustomizations`, against the entry-by-entry reading of the tree. */
module CustomizationParse {
  import opened Options
  import opened JsText
  import opened Frontmatter
  import opened CustomizationModel

  lemma {:induction false} PathIs(place: Place, path: Text)
    requires ValidPlace(place)
    ensures path == PathOf(place) <==> Classify(path) == place
  {
    ClassifyPath(place);
    if Classify(path) == place { PathClassified(path); }
  }

  /** The first pass takes the path: an entry of its own, or a file of some skill. */
  predicate Taken(tree: Tree, path: Text) {
    Classify(path).SkillFile? || Explained(tree, path)
  }

  ghost predicate InstructionsSoFar(tree: Tree, seen: set<Text>, instructions: map<Text, InstructionEntry>) {
    forall s ::
      && (s in instructions <==>
            s in SCOPES && PathOf(Instruction(s)) in seen && InstructionAt(tree, s).Some?)
      && (s in instructions ==> instructions[s] == InstructionAt(tree, s).value)
  }

  ghost predicate PromptsSoFar(tree: Tree, seen: set<Text>, prompts: map<Text, PromptEntry>) {
    forall n ::
      && (n in prompts <==> IsName(n) && PathOf(Prompt(n)) in seen && PromptAt(tree, n).Some?)
      && (n in prompts ==> prompts[n] == PromptAt(tree, n).value)
  }

  ghost predicate FilesSoFar(tree: Tree, seen: set<Text>, skillFiles: map<Text, map<Text, Text>>) {
    && seen <= tree.files.Keys
    && (forall n :: n in skillFiles ==> IsName(n) && skillFiles[n] != map[])
    && (forall n, f {:trigger f in skillFiles[n]} {:trigger PathOf(SkillFile(n, f))} :: IsName(n) ==>
          && (PathOf(SkillFile(n, f)) in seen <==> n in skillFiles && f in skillFiles[n])
          && (n in skillFiles && f in skillFiles[n] ==> skillFiles[n][f] == tree.files[PathOf(SkillFile(n, f))]))
  }

  function FilesOf(skillFiles: map<Text, map<Text, Text>>, name: Text): map<Text, Text> {
    if name in skillFiles then skillFiles[name] else map[]
  }

  lemma {:induction false} TakeInstruction(
    tree: Tree, seen: set<Text>, path: Text, before: map<Text, InstructionEntry>, after: map<Text, InstructionEntry>)
    requires path in tree.files && InstructionsSoFar(tree, seen, before)
    requires var place := Classify(path);
             after == if place.Instruction? && InstructionAt(tree, place.scope).Some?
                      then before[place.scope := InstructionAt(tree, place.scope).value] else before
    ensures InstructionsSoFar(tree, seen + {path}, after)
  {
    forall s | s in SCOPES ensures path == PathOf(Instruction(s)) <==> Classify(path) == Instruction(s) {
      PathIs(Instruction(s), path);
    }
  }

  lemma {:induction false} TakePrompt(
    tree: Tree, seen: set<Text>, path: Text, before: map<Text, PromptEntry>, after: map<Text, PromptEntry>)
    requires path in tree.files && PromptsSoFar(tree, seen, before)
    requires var place := Classify(path);
             after == if place.Prompt? && PromptAt(tree, place.name).Some?
                      then before[place.name := PromptAt(tree, place.name).value] else before
    ensures PromptsSoFar(tree, seen + {path}, after)
  {
    forall n | IsName(n) ensures path == PathOf(Prompt(n)) <==> Classify(path) == Prompt(n) {
      PathIs(Prompt(n), path);
    }
  }

  lemma {:induction false} TakeSkillFile(
    tree: Tree, seen: set<Text>, path: Text, before: map<Text, map<Text, Text>>, after: map<Text, map<Text, Text>>)
    requires path in tree.files && FilesSoFar(tree, seen, before)
    requires var place := Classify(path);
             after == if place.SkillFile?
                      then before[place.name := FilesOf(before, place.name)[place.file := tree.files[path]]] else before
    ensures FilesSoFar(tree, seen + {path}, after)
  {
    if Classify(path).SkillFile? {
      PathClassified(path);
      assert Classify(path).file in after[Classify(path).name];
    }
    forall n, f | IsName(n) ensures path == PathOf(SkillFile(n, f)) <==> Classify(path) == SkillFile(n, f) {
      PathIs(SkillFile(n, f), path);
    }
  }

  /** The whole tree seen, the files gathered for a name are the skill's files. */
  lemma {:induction false} AllFilesGathered(tree: Tree, skillFiles: map<Text, map<Text, Text>>, name: Text)
    requires FilesSoFar(tree, tree.files.Keys, skillFiles)
    ensures FilesOf(skillFiles, name) == SkillFilesAt(tree, name)
  {
    var files := FilesOf(skillFiles, name);
    forall f ensures f in files <==> f in SkillFilesAt(tree, name) {
      if IsName(name) { SkillFileIn(tree, name, f); }
    }
    assert files.Keys == SkillFilesAt(tree, name).Keys;
    forall f | f in files ensures files[f] == SkillFilesAt(tree, name)[f] {
      assert f in SkillFilesAt(tree, name);
      assert f in skillFiles[name];
    }
  }

  lemma {:induction false} ParsedInstructions(tree: Tree, instructions: map<Text, InstructionEntry>)
    requires InstructionsSoFar(tree, tree.files.Keys, instructions)
    ensures instructions == Parse(tree).instructions
  {
    assert instructions.Keys == Parse(tree).instructions.Keys;
  }

  lemma {:induction false} ParsedPrompts(tree: Tree, prompts: map<Text, PromptEntry>)
    requires PromptsSoFar(tree, tree.files.Keys, prompts)
    ensures prompts == Parse(tree).prompts
  {
    hide Parse, PathOf, PromptIn, IsName;
    forall n ensures n in prompts <==> n in Parse(tree).prompts {
      PromptParsed(tree, n);
    }
    assert prompts.Keys == Parse(tree).prompts.Keys;
    forall n | n in prompts ensures prompts[n] == Parse(tree).prompts[n] {
      PromptParsed(tree, n);
    }
  }

  /** One file to its taker, which says whether it took it. */
  method TakeFile(
    tree: Tree, path: Text, instructions: map<Text, InstructionEntry>, prompts: map<Text, PromptEntry>,
    skillFiles: map<Text, map<Text, Text>>)
    returns (instructions': map<Text, InstructionEntry>, prompts': map<Text, PromptEntry>,
             skillFiles': map<Text, map<Text, Text>>, taken: bool)
    requires path in tree.files
    ensures var place := Classify(path);
            && instructions' == (if place.Instruction? && InstructionAt(tree, place.scope).Some?
                                 then instructions[place.scope := InstructionAt(tree, place.scope).value] else instructions)
            && prompts' == (if place.Prompt? && PromptAt(tree, place.name).Some?
                            then prompts[place.name := PromptAt(tree, place.name).value] else prompts)
            && skillFiles' == (if place.SkillFile?
                               then skillFiles[place.name := FilesOf(skillFiles, place.name)[place.file := tree.files[path]]]
                               else skillFiles)
    ensures taken == Taken(tree, path)
  {
    instructions', prompts', skillFiles', taken := instructions, prompts, skillFiles, false;
    var place := Classify(path);
    if place != Nowhere { PathClassified(path); }
    match place {
      case Instruction(scope) =>
        var entry := InstructionAt(tree, scope);
        if entry.Some? { instructions', taken := instructions[scope := entry.value], true; }
      case Prompt(name) =>
        var entry := PromptAt(tree, name);
        if entry.Some? { prompts', taken := prompts[name := entry.value], true; }
      case SkillFile(name, file) =>
        var files := FilesOf(skillFiles, name);
        skillFiles', taken := skillFiles[name := files[file := tree.files[path]]], true;
      case Nowhere =>
    }
  }

  /** The first pass over every file, in the order the store lists them. */
  method TakeFiles(tree: Tree, paths: seq<Text>)
    returns (instructions: map<Text, InstructionEntry>, prompts: map<Text, PromptEntry>,
             skillFiles: map<Text, map<Text, Text>>, ignored: set<Text>)
    requires forall p :: p in paths <==> p in tree.files
    ensures InstructionsSoFar(tree, tree.files.Keys, instructions)
    ensures PromptsSoFar(tree, tree.files.Keys, prompts)
    ensures FilesSoFar(tree, tree.files.Keys, skillFiles)
    ensures ignored == set p | p in tree.files && !Taken(tree, p)
  {
    instructions, prompts, skillFiles, ignored := map[], map[], map[], {};
    ghost var seen: set<Text> := {};
    for i := 0 to |paths|
      invariant forall p :: p in seen <==> p in paths[..i]
      invariant InstructionsSoFar(tree, seen, instructions)
      invariant PromptsSoFar(tree, seen, prompts)
      invariant FilesSoFar(tree, seen, skillFiles)
      invariant ignored == set p | p in seen && !Taken(tree, p)
    {
      var path := paths[i];
      var nextI, nextP, nextS, taken := TakeFile(tree, path, instructions, prompts, skillFiles);
      TakeInstruction(tree, seen, path, instructions, nextI);
      TakePrompt(tree, seen, path, prompts, nextP);
      TakeSkillFile(tree, seen, path, skillFiles, nextS);
      instructions, prompts, skillFiles := nextI, nextP, nextS;
      if !taken { ignored := ignored + {path}; }
      assert paths[..i + 1] == paths[..i] + [path];
      seen := seen + {path};
    }
    assert paths[..|paths|] == paths;
    assert seen == tree.files.Keys;
  }

  function SkillPaths(name: Text, files: map<Text, Text>): set<Text> {
    set f | f in files && IsName(name) :: PathOf(SkillFile(name, f))
  }

  /** The second pass: a skill for each name whose entry file reads and that no prompt bears. */
  method GatherSkills(
    tree: Tree, skillFiles: map<Text, map<Text, Text>>, prompts: map<Text, PromptEntry>,
    ghost parsed: map<Text, SkillEntry>)
    returns (skills: map<Text, SkillEntry>, dropped: set<Text>)
    requires forall n :: n in skillFiles ==> IsName(n) && skillFiles[n] == SkillFilesAt(tree, n)
    requires prompts == Parse(tree).prompts && parsed == Parse(tree).skills
    requires parsed.Keys <= skillFiles.Keys
    ensures skills == parsed
    ensures forall p :: p in dropped <==>
      exists n :: n in skillFiles && n !in parsed && p in SkillPaths(n, skillFiles[n])
  {
    hide Parse;
    skills, dropped := map[], {};
    var names := skillFiles.Keys;
    ghost var done: set<Text> := {};
    while names != {}
      invariant done !! names && done + names == skillFiles.Keys
      invariant forall n :: n in skills <==> n in done && n in parsed
      invariant forall n :: n in skills ==> skills[n] == parsed[n]
      invariant forall p :: p in dropped <==>
        exists n :: n in done && n !in parsed && p in SkillPaths(n, skillFiles[n])
      decreases names
    {
      var name :| name in names;
      var skill := ReadSkill(tree, name, skillFiles[name], prompts);
      SkillParsed(tree, name);
      names, done := names - {name}, done + {name};
      if skill.None? {
        dropped := dropped + SkillPaths(name, skillFiles[name]);
      } else {
        skills := skills[name := skill.value];
      }
    }
    assert skills.Keys == parsed.Keys;
  }

  method ReadSkill(tree: Tree, name: Text, files: map<Text, Text>, prompts: map<Text, PromptEntry>)
    returns (skill: Option<SkillEntry>)
    requires IsName(name) && files == SkillFilesAt(tree, name) && prompts == Parse(tree).prompts
    ensures skill == SkillAt(tree, name)
  {
    PromptParsed(tree, name);
    var description := if SKILL_ENTRY_FILE in files then DescriptionIn(files[SKILL_ENTRY_FILE]) else None;
    if description.None? || name in prompts { return None; }
    return Some(SkillEntry(description.value, files, AuthorOf(tree, PathOf(SkillFile(name, SKILL_ENTRY_FILE)))));
  }

  /** `paths` lists the tree's files in the order the store returns them. */
  method ParseCustomizations(tree: Tree, paths: seq<Text>) returns (state: Customizations)
    requires forall p :: p in paths <==> p in tree.files
    ensures state == Parse(tree)
  {
    var instructions, prompts, skillFiles, ignored := TakeFiles(tree, paths);
    ParsedInstructions(tree, instructions);
    ParsedPrompts(tree, prompts);
    SkillsGathered(tree, skillFiles);
    var skills, dropped := GatherSkills(tree, skillFiles, prompts, Parse(tree).skills);
    DroppedPaths(tree, skillFiles, Parse(tree).skills, dropped);
    IgnoredComplete(tree, skillFiles, dropped);
    state := Customizations(instructions, prompts, skills, ignored + dropped);
  }

  lemma {:induction false} SkillsGathered(tree: Tree, skillFiles: map<Text, map<Text, Text>>)
    requires FilesSoFar(tree, tree.files.Keys, skillFiles)
    ensures forall n :: n in skillFiles ==> IsName(n) && skillFiles[n] == SkillFilesAt(tree, n)
    ensures Parse(tree).skills.Keys <= skillFiles.Keys
  {
    forall n | n in skillFiles ensures skillFiles[n] == SkillFilesAt(tree, n) {
      AllFilesGathered(tree, skillFiles, n);
    }
    forall n | n in Parse(tree).skills ensures n in skillFiles {
      SkillParsed(tree, n);
      SkillGathered(tree, skillFiles, n);
    }
  }

  lemma {:induction false} PathsOfSkill(tree: Tree, name: Text)
    requires IsName(name)
    ensures forall p :: p in SkillPaths(name, SkillFilesAt(tree, name)) <==>
      p in tree.files && Classify(p).SkillFile? && Classify(p).name == name
  {
    forall p ensures p in SkillPaths(name, SkillFilesAt(tree, name)) <==>
      p in tree.files && Classify(p).SkillFile? && Classify(p).name == name
    {
      if p in SkillPaths(name, SkillFilesAt(tree, name)) {
        var f :| f in SkillFilesAt(tree, name) && p == PathOf(SkillFile(name, f));
        SkillFileIn(tree, name, f);
        ClassifyPath(SkillFile(name, f));
      } else if p in tree.files && Classify(p).SkillFile? && Classify(p).name == name {
        PathClassified(p);
        SkillFileIn(tree, name, Classify(p).file);
      }
    }
  }

  lemma {:induction false} SkillGathered(tree: Tree, skillFiles: map<Text, map<Text, Text>>, name: Text)
    requires FilesSoFar(tree, tree.files.Keys, skillFiles) && SkillAt(tree, name).Some?
    ensures name in skillFiles
  {
    AllFilesGathered(tree, skillFiles, name);
  }

  lemma {:induction false} DroppedPaths(
    tree: Tree, skillFiles: map<Text, map<Text, Text>>, parsed: map<Text, SkillEntry>, dropped: set<Text>)
    requires forall n :: n in skillFiles ==> IsName(n) && skillFiles[n] == SkillFilesAt(tree, n)
    requires forall p :: p in dropped <==>
      exists n :: n in skillFiles && n !in parsed && p in SkillPaths(n, skillFiles[n])
    ensures forall p :: p in dropped <==>
      && p in tree.files && Classify(p).SkillFile? && Classify(p).name in skillFiles && Classify(p).name !in parsed
  {
    forall n | n in skillFiles
      ensures forall p :: p in SkillPaths(n, skillFiles[n]) <==>
        p in tree.files && Classify(p).SkillFile? && Classify(p).name == n
    {
      PathsOfSkill(tree, n);
    }
  }

  lemma {:induction false} IgnoredComplete(
    tree: Tree, skillFiles: map<Text, map<Text, Text>>, dropped: set<Text>)
    requires FilesSoFar(tree, tree.files.Keys, skillFiles)
    requires forall p :: p in dropped <==>
      && p in tree.files && Classify(p).SkillFile? && Classify(p).name in skillFiles
      && Classify(p).name !in Parse(tree).skills
    ensures (set p | p in tree.files && !Taken(tree, p)) + dropped == Parse(tree).ignored
  {
    forall p | p in tree.files && Classify(p).SkillFile?
      ensures Classify(p).name in skillFiles
      ensures Classify(p).name in Parse(tree).skills <==> Explained(tree, p)
    {
      PathClassified(p);
      SkillParsed(tree, Classify(p).name);
    }
  }
}
