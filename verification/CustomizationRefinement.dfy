/**
 The store refines the entries: applying the changes an edit plans and parsing
 again is the abstract update the edit names (`planEdit`, `parseCustomizations`
 in `src/customization/model.ts`).
 */
module CustomizationRefinement {
  import opened Options
  import opened JsText
  import opened Frontmatter
  import opened CustomizationModel
  import opened CustomizationPlan
  import opened CustomizationParse

  function Get<K, V>(m: map<K, V>, k: K): Option<V> {
    if k in m then Some(m[k]) else None
  }

  // ----- The entries of a tree, pointwise -----------------------------------------

  ghost predicate ServesInstructions(tree: Tree, m: map<Text, InstructionEntry>) {
    (forall s :: s in m ==> s in SCOPES) && forall s :: s in SCOPES ==> InstructionAt(tree, s) == Get(m, s)
  }

  ghost predicate ServesPrompts(tree: Tree, m: map<Text, PromptEntry>) {
    forall n :: PromptAt(tree, n) == Get(m, n)
  }

  ghost predicate ServesSkills(tree: Tree, m: map<Text, SkillEntry>) {
    forall n :: SkillAt(tree, n) == Get(m, n)
  }

  ghost predicate NothingIgnored(tree: Tree) {
    forall p :: p in tree.files ==> Explained(tree, p)
  }

  lemma {:induction false} ParseServes(tree: Tree)
    ensures ServesInstructions(tree, Parse(tree).instructions)
    ensures ServesPrompts(tree, Parse(tree).prompts)
    ensures ServesSkills(tree, Parse(tree).skills)
    ensures NothingIgnored(tree) <==> Parse(tree).ignored == {}
  {
    forall n ensures PromptAt(tree, n) == Get(Parse(tree).prompts, n) { PromptParsed(tree, n); }
    forall n ensures SkillAt(tree, n) == Get(Parse(tree).skills, n) { SkillParsed(tree, n); }
    if Parse(tree).ignored == {} {
      forall p | p in tree.files ensures Explained(tree, p) {
        assert p !in Parse(tree).ignored;
      }
    }
  }

  lemma {:induction false} SameMap<K, V>(a: map<K, V>, b: map<K, V>)
    requires forall k :: Get(a, k) == Get(b, k)
    ensures a == b
  {
    assert forall k :: k in a <==> Get(a, k).Some?;
    assert forall k :: k in b <==> Get(b, k).Some?;
    assert forall k :: k in a ==> a[k] == Get(a, k).value;
  }

  /** Entries that match a tree pointwise are what it parses into. */
  lemma {:induction false} ServedIsParsed(tree: Tree, c: Customizations)
    requires ServesInstructions(tree, c.instructions) && ServesPrompts(tree, c.prompts) && ServesSkills(tree, c.skills)
    requires NothingIgnored(tree) && c.ignored == {}
    ensures c == Parse(tree)
  {
    ParseServes(tree);
    var parsed := Parse(tree);
    forall s ensures Get(c.instructions, s) == Get(parsed.instructions, s) {
      if s in SCOPES { assert InstructionAt(tree, s) == Get(c.instructions, s); }
    }
    SameMap(c.instructions, parsed.instructions);
    forall n ensures Get(c.prompts, n) == Get(parsed.prompts, n) { assert PromptAt(tree, n) == Get(c.prompts, n); }
    SameMap(c.prompts, parsed.prompts);
    forall n ensures Get(c.skills, n) == Get(parsed.skills, n) { assert SkillAt(tree, n) == Get(c.skills, n); }
    SameMap(c.skills, parsed.skills);
  }

  // ----- Locality: a change at one path -----------------------------------------------

  predicate SameAt(a: Tree, b: Tree, path: Text) {
    && (path in a.files <==> path in b.files)
    && (path in a.files ==> a.files[path] == b.files[path])
    && AuthorOf(a, path) == AuthorOf(b, path)
  }

  lemma {:induction false} ChangeIsLocal(tree: Tree, place: Place, content: Option<Text>, author: Author, other: Place)
    requires ValidPlace(place) && ValidPlace(other) && other != place
    ensures SameAt(tree, ApplyChange(tree, FileChange(PathOf(place), content), author), PathOf(other))
  {
    if PathOf(place) == PathOf(other) { PathInjective(place, other); }
  }

  lemma {:induction false} SamePrompt(a: Tree, b: Tree, name: Text)
    requires IsName(name) ==> SameAt(a, b, PathOf(Prompt(name)))
    ensures PromptAt(a, name) == PromptAt(b, name)
  {
  }

  lemma {:induction false} SameSkillFiles(a: Tree, b: Tree, name: Text)
    requires IsName(name) ==> forall f :: SameAt(a, b, PathOf(SkillFile(name, f)))
    ensures SkillFilesAt(a, name) == SkillFilesAt(b, name)
  {
    if IsName(name) {
      forall f ensures Get(SkillFilesAt(a, name), f) == Get(SkillFilesAt(b, name), f) {
        SkillFileIn(a, name, f);
        SkillFileIn(b, name, f);
        assert SameAt(a, b, PathOf(SkillFile(name, f)));
      }
      SameMap(SkillFilesAt(a, name), SkillFilesAt(b, name));
    }
  }

  lemma {:induction false} SameSkill(a: Tree, b: Tree, name: Text)
    requires IsName(name) ==> forall f :: SameAt(a, b, PathOf(SkillFile(name, f)))
    requires PromptAt(a, name).Some? <==> PromptAt(b, name).Some?
    ensures SkillAt(a, name) == SkillAt(b, name)
  {
    SameSkillFiles(a, b, name);
    if IsName(name) { assert SameAt(a, b, PathOf(SkillFile(name, SKILL_ENTRY_FILE))); }
  }

  lemma {:induction false} SkillFileServed(tree: Tree, name: Text, file: Text)
    requires NothingIgnored(tree) && IsName(name)
    ensures file in SkillFilesAt(tree, name) ==> SkillAt(tree, name).Some?
  {
    SkillFileIn(tree, name, file);
    ClassifyPath(SkillFile(name, file));
  }

  /** Files of a skill no entry serves cannot be there when nothing is ignored. */
  lemma {:induction false} NoHiddenSkill(tree: Tree, name: Text)
    requires NothingIgnored(tree) && SkillAt(tree, name).None?
    ensures SkillFilesAt(tree, name) == map[]
  {
    forall f ensures f !in SkillFilesAt(tree, name) {
      if IsName(name) { SkillFileServed(tree, name, f); }
    }
  }

  // ----- One instruction file ------------------------------------------------------------

  lemma {:induction false} InstructionChange(tree: Tree, scope: Text, content: Option<Text>, author: Author)
    requires scope in SCOPES
    ensures var after := ApplyChange(tree, FileChange(PathOf(Instruction(scope)), content), author);
            && (forall s :: s in SCOPES && s != scope ==> InstructionAt(after, s) == InstructionAt(tree, s))
            && (InstructionAt(after, scope) == if content.None? || Trim(content.value) == [] then None
                  else Some(InstructionEntry(Trim(content.value), Some(author))))
            && (forall n :: PromptAt(after, n) == PromptAt(tree, n) && SkillAt(after, n) == SkillAt(tree, n))
  {
    var after := ApplyChange(tree, FileChange(PathOf(Instruction(scope)), content), author);
    forall s | s in SCOPES && s != scope ensures InstructionAt(after, s) == InstructionAt(tree, s) {
      ChangeIsLocal(tree, Instruction(scope), content, author, Instruction(s));
    }
    forall n ensures PromptAt(after, n) == PromptAt(tree, n) && SkillAt(after, n) == SkillAt(tree, n) {
      if IsName(n) {
        ChangeIsLocal(tree, Instruction(scope), content, author, Prompt(n));
        forall f ensures SameAt(tree, after, PathOf(SkillFile(n, f))) {
          ChangeIsLocal(tree, Instruction(scope), content, author, SkillFile(n, f));
        }
      }
      SamePrompt(tree, after, n);
      SameSkill(tree, after, n);
    }
  }

  // ----- One prompt file -------------------------------------------------------------------

  lemma {:induction false} PromptChange(tree: Tree, name: Text, content: Option<Text>, author: Author)
    requires IsName(name)
    ensures var after := ApplyChange(tree, FileChange(PathOf(Prompt(name)), content), author);
            && (forall s :: s in SCOPES ==> InstructionAt(after, s) == InstructionAt(tree, s))
            && (forall n :: n != name ==> PromptAt(after, n) == PromptAt(tree, n))
            && (forall n :: n != name ==> SkillAt(after, n) == SkillAt(tree, n))
            && (PromptAt(after, name) == if content.None? then None else PromptIn(content.value, Some(author)))
            && SkillFilesAt(after, name) == SkillFilesAt(tree, name)
  {
    var after := ApplyChange(tree, FileChange(PathOf(Prompt(name)), content), author);
    forall s | s in SCOPES ensures InstructionAt(after, s) == InstructionAt(tree, s) {
      ChangeIsLocal(tree, Prompt(name), content, author, Instruction(s));
    }
    forall n ensures n != name ==> PromptAt(after, n) == PromptAt(tree, n)
             ensures n != name ==> SkillAt(after, n) == SkillAt(tree, n)
             ensures SkillFilesAt(after, n) == SkillFilesAt(tree, n)
    {
      if IsName(n) {
        forall f ensures SameAt(tree, after, PathOf(SkillFile(n, f))) {
          ChangeIsLocal(tree, Prompt(name), content, author, SkillFile(n, f));
        }
        if n != name { ChangeIsLocal(tree, Prompt(name), content, author, Prompt(n)); }
      }
      SameSkillFiles(tree, after, n);
      if n != name {
        SamePrompt(tree, after, n);
        SameSkill(tree, after, n);
      }
    }
  }

  // ----- One skill file ----------------------------------------------------------------------

  lemma {:induction false} SkillFilesChange(tree: Tree, name: Text, file: Text, content: Option<Text>, author: Author)
    requires IsName(name)
    ensures var after := ApplyChange(tree, FileChange(PathOf(SkillFile(name, file)), content), author);
            SkillFilesAt(after, name) == if content.None? then SkillFilesAt(tree, name) - {file}
                                         else SkillFilesAt(tree, name)[file := content.value]
  {
    var after := ApplyChange(tree, FileChange(PathOf(SkillFile(name, file)), content), author);
    var expected := if content.None? then SkillFilesAt(tree, name) - {file} else SkillFilesAt(tree, name)[file := content.value];
    forall f ensures Get(SkillFilesAt(after, name), f) == Get(expected, f) {
      SkillFileIn(tree, name, f);
      SkillFileIn(after, name, f);
      if f != file { ChangeIsLocal(tree, SkillFile(name, file), content, author, SkillFile(name, f)); }
    }
    SameMap(SkillFilesAt(after, name), expected);
  }

  lemma {:induction false} SkillChangeElsewhere(tree: Tree, name: Text, file: Text, content: Option<Text>, author: Author)
    requires IsName(name)
    ensures var after := ApplyChange(tree, FileChange(PathOf(SkillFile(name, file)), content), author);
            && (forall s :: s in SCOPES ==> InstructionAt(after, s) == InstructionAt(tree, s))
            && (forall n :: PromptAt(after, n) == PromptAt(tree, n))
            && (forall n :: n != name ==> SkillAt(after, n) == SkillAt(tree, n))
            && (file != SKILL_ENTRY_FILE ==>
                  AuthorOf(after, PathOf(SkillFile(name, SKILL_ENTRY_FILE)))
                  == AuthorOf(tree, PathOf(SkillFile(name, SKILL_ENTRY_FILE))))
  {
    var after := ApplyChange(tree, FileChange(PathOf(SkillFile(name, file)), content), author);
    forall s | s in SCOPES ensures InstructionAt(after, s) == InstructionAt(tree, s) {
      ChangeIsLocal(tree, SkillFile(name, file), content, author, Instruction(s));
    }
    forall n ensures PromptAt(after, n) == PromptAt(tree, n) {
      if IsName(n) { ChangeIsLocal(tree, SkillFile(name, file), content, author, Prompt(n)); }
      SamePrompt(tree, after, n);
    }
    forall n | n != name ensures SkillAt(after, n) == SkillAt(tree, n) {
      if IsName(n) {
        forall f ensures SameAt(tree, after, PathOf(SkillFile(n, f))) {
          ChangeIsLocal(tree, SkillFile(name, file), content, author, SkillFile(n, f));
        }
      }
      SameSkill(tree, after, n);
    }
    if file != SKILL_ENTRY_FILE {
      ChangeIsLocal(tree, SkillFile(name, file), content, author, SkillFile(name, SKILL_ENTRY_FILE));
    }
  }

  // ----- Nothing becomes ignored -----------------------------------------------------------------

  /** No entry of `tree` is lost in `after`, except possibly the one at `place`. */
  ghost predicate KeepsOthers(tree: Tree, after: Tree, place: Place) {
    && (forall s :: s in SCOPES && place != Instruction(s) && InstructionAt(tree, s).Some? ==> InstructionAt(after, s).Some?)
    && (forall n :: place != Prompt(n) && PromptAt(tree, n).Some? ==> PromptAt(after, n).Some?)
    && (forall n :: SkillAt(tree, n).Some? && !(place.SkillFile? && place.name == n) ==> SkillAt(after, n).Some?)
  }

  lemma {:induction false} ChangeExplained(tree: Tree, place: Place, content: Option<Text>, author: Author)
    requires ValidPlace(place) && NothingIgnored(tree)
    requires var after := ApplyChange(tree, FileChange(PathOf(place), content), author);
             && KeepsOthers(tree, after, place)
             && (content.Some? ==> Explained(after, PathOf(place)))
             && (place.SkillFile? ==> SkillAt(after, place.name).Some?)
    ensures NothingIgnored(ApplyChange(tree, FileChange(PathOf(place), content), author))
  {
    var after := ApplyChange(tree, FileChange(PathOf(place), content), author);
    forall p | p in after.files ensures Explained(after, p) {
      if p != PathOf(place) {
        assert Explained(tree, p);
        PathClassified(p);
        if Classify(p).SkillFile? && place.SkillFile? && Classify(p).name == place.name {
          assert SkillAt(after, place.name).Some?;
        }
      }
    }
  }

  // ----- The refinement -----------------------------------------------------------------------------

  lemma {:induction false} ApplyOne(tree: Tree, change: FileChange, author: Author)
    ensures ApplyAll(tree, [change], author) == ApplyChange(tree, change, author)
  {
    assert [change][..0] == [];
  }

  lemma {:induction false} PaddedText(text: Text)
    requires Trim(text) != []
    ensures Trim(Trim(text) + [LF]) == Trim(text)
  {
    TrimTrims(text);
    assert [] + Trim(text) + [LF] == Trim(text) + [LF];
    TrimPadded([], Trim(text), [LF]);
  }

  lemma {:induction false} RefineInstructions(tree: Tree, scope: Text, text: Option<Text>, author: Author)
    requires NothingIgnored(tree) && scope in SCOPES
    requires PlanInstructions(Parse(tree), scope, text).Ok?
    ensures var after := ApplyAll(tree, PlanInstructions(Parse(tree), scope, text).value, author);
            NothingIgnored(after) && Parse(after) == Update(Parse(tree), EditInstructions(scope, text), author)
  {
    var content := if text.None? then None else Some(Trim(text.value) + [LF]);
    var change := FileChange(PathOf(Instruction(scope)), content);
    ApplyOne(tree, change, author);
    InstructionChange(tree, scope, content, author);
    if text.Some? { PaddedText(text.value); }
    ParseServes(tree);
    var after := ApplyChange(tree, change, author);
    ClassifyPath(Instruction(scope));
    ChangeExplained(tree, Instruction(scope), content, author);
    ServedIsParsed(after, Update(Parse(tree), EditInstructions(scope, text), author));
  }

  function WithEntry<T>(m: map<Text, T>, name: Text, entry: Option<T>): map<Text, T> {
    if entry.None? then m - {name} else m[name := entry.value]
  }

  lemma {:induction false} PromptFileRefined(
    tree: Tree, name: Text, content: Option<Text>, entry: Option<PromptEntry>, author: Author)
    requires NothingIgnored(tree) && IsName(name)
    requires content.None? ==> entry.None? && PromptAt(tree, name).Some?
    requires content.Some? ==> SkillAt(tree, name).None? && PromptIn(content.value, Some(author)) == entry != None
    ensures var after := ApplyChange(tree, FileChange(PathOf(Prompt(name)), content), author);
            && NothingIgnored(after)
            && Parse(after) == Parse(tree).(prompts := WithEntry(Parse(tree).prompts, name, entry))
  {
    hide Parse, PromptIn, PathOf, SkillAt, PromptAt, InstructionAt, SkillFilesAt, NothingIgnored, IsName;
    PromptChange(tree, name, content, author);
    ParseServes(tree);
    var after := ApplyChange(tree, FileChange(PathOf(Prompt(name)), content), author);
    ClassifyPath(Prompt(name));
    PromptKeepsSkills(tree, name, content, author);
    ChangeExplained(tree, Prompt(name), content, author);
    ServedIsParsed(after, Parse(tree).(prompts := WithEntry(Parse(tree).prompts, name, entry)));
  }

  lemma {:induction false} RefinePrompt(tree: Tree, name: Text, prompt: Option<PromptText>, author: Author)
    requires NothingIgnored(tree)
    requires PlanPrompt(Parse(tree), name, prompt).Ok?
    ensures var after := ApplyAll(tree, PlanPrompt(Parse(tree), name, prompt).value, author);
            NothingIgnored(after) && Parse(after) == Update(Parse(tree), EditPrompt(name, prompt), author)
  {
    SkillParsed(tree, name);
    PromptParsed(tree, name);
    var content, entry := None, None;
    if prompt.Some? {
      var p := prompt.value;
      content := Some(PrintPrompt(TitleOf(p), Trim(p.description), Trim(p.text)));
      entry := Some(PromptEntry(TitleOf(p), Trim(p.description), Trim(p.text), Some(author)));
      TrimTrims(p.text);
      PromptFileRoundTrip(TitleOf(p), Trim(p.description), Trim(p.text), Some(author));
    }
    ApplyOne(tree, FileChange(PathOf(Prompt(name)), content), author);
    PromptFileRefined(tree, name, content, entry, author);
  }

  /** A prompt's name is no skill's, before or after its file is written or removed. */
  lemma {:induction false} PromptKeepsSkills(tree: Tree, name: Text, content: Option<Text>, author: Author)
    requires NothingIgnored(tree) && IsName(name)
    requires content.None? ==> PromptAt(tree, name).Some?
    requires content.Some? ==> SkillAt(tree, name).None? && PromptIn(content.value, Some(author)).Some?
    ensures var after := ApplyChange(tree, FileChange(PathOf(Prompt(name)), content), author);
            SkillAt(tree, name).None? && SkillAt(after, name).None?
  {
    NoHiddenSkill(tree, name);
    PromptChange(tree, name, content, author);
  }

  // ----- Skills ------------------------------------------------------------------------------------

  /** A change of one skill file whose skill is served after it. */
  lemma {:induction false} SkillFileRefined(
    tree: Tree, name: Text, file: Text, content: Option<Text>, entry: SkillEntry, author: Author)
    requires NothingIgnored(tree) && IsName(name)
    requires var after := ApplyChange(tree, FileChange(PathOf(SkillFile(name, file)), content), author);
             SkillAt(after, name) == Some(entry)
    ensures var after := ApplyChange(tree, FileChange(PathOf(SkillFile(name, file)), content), author);
            && NothingIgnored(after)
            && Parse(after) == Parse(tree).(skills := Parse(tree).skills[name := entry])
  {
    hide Parse, PathOf, PromptAt, InstructionAt, SkillAt, SkillFilesAt, NothingIgnored, IsName;
    SkillChangeElsewhere(tree, name, file, content, author);
    ParseServes(tree);
    var after := ApplyChange(tree, FileChange(PathOf(SkillFile(name, file)), content), author);
    ClassifyPath(SkillFile(name, file));
    ChangeExplained(tree, SkillFile(name, file), content, author);
    ServedIsParsed(after, Parse(tree).(skills := Parse(tree).skills[name := entry]));
  }

  lemma {:induction false} RefineSkillWrite(tree: Tree, name: Text, path: Option<Text>, text: Text, author: Author, listing: seq<Text>)
    requires NothingIgnored(tree)
    requires PlanSkill(Parse(tree), name, path, Some(text), listing).Ok?
    ensures var after := ApplyAll(tree, PlanSkill(Parse(tree), name, path, Some(text), listing).value, author);
            NothingIgnored(after) && Parse(after) == Update(Parse(tree), EditSkill(name, path, Some(text)), author)
  {
    hide Parse, Read, DescriptionIn, PathOf, SkillAt, ApplyAll, ApplyChange, NothingIgnored, TotalLength, IsName, CheckedPath;
    var file := FileOf(path);
    var change := FileChange(PathOf(SkillFile(name, file)), Some(text));
    ApplyOne(tree, change, author);
    WrittenSkill(tree, name, file, text, author);
    SkillFileRefined(tree, name, file, Some(text), SkillAt(ApplyChange(tree, change, author), name).value, author);
  }

  lemma {:induction false} WrittenSkill(tree: Tree, name: Text, file: Text, text: Text, author: Author)
    requires NothingIgnored(tree) && IsName(name)
    requires name !in Parse(tree).prompts
    requires file == SKILL_ENTRY_FILE ==> DescriptionIn(text).Some?
    requires file != SKILL_ENTRY_FILE ==> name in Parse(tree).skills
    ensures var after := ApplyChange(tree, FileChange(PathOf(SkillFile(name, file)), Some(text)), author);
            var files := FilesWith(Parse(tree), name, file, text);
            SkillAt(after, name) == Some(
              if file == SKILL_ENTRY_FILE then SkillEntry(DescriptionIn(text).value, files, Some(author))
              else Parse(tree).skills[name].(files := files))
  {
    hide Parse, DescriptionIn, PathOf, NothingIgnored, SkillFilesAt, PromptAt, InstructionAt, IsName;
    PromptParsed(tree, name);
    SkillParsed(tree, name);
    SkillFilesChange(tree, name, file, Some(text), author);
    SkillChangeElsewhere(tree, name, file, Some(text), author);
    if SkillAt(tree, name).None? { NoHiddenSkill(tree, name); }
  }

  lemma {:induction false} RefineSkillFileRemoval(tree: Tree, name: Text, file: Text, author: Author, listing: seq<Text>)
    requires NothingIgnored(tree) && file != SKILL_ENTRY_FILE
    requires PlanSkill(Parse(tree), name, Some(file), None, listing).Ok?
    ensures var after := ApplyAll(tree, PlanSkill(Parse(tree), name, Some(file), None, listing).value, author);
            NothingIgnored(after) && Parse(after) == Update(Parse(tree), EditSkill(name, Some(file), None), author)
  {
    hide Parse, Read, DescriptionIn, PathOf, SkillAt, ApplyAll, ApplyChange, NothingIgnored, TotalLength, IsName, CheckedPath;
    var change := FileChange(PathOf(SkillFile(name, file)), None);
    ApplyOne(tree, change, author);
    ShortenedSkill(tree, name, file, author);
    SkillFileRefined(tree, name, file, None, SkillAt(ApplyChange(tree, change, author), name).value, author);
  }

  lemma {:induction false} ShortenedSkill(tree: Tree, name: Text, file: Text, author: Author)
    requires IsName(name) && file != SKILL_ENTRY_FILE && name in Parse(tree).skills
    ensures var after := ApplyChange(tree, FileChange(PathOf(SkillFile(name, file)), None), author);
            SkillAt(after, name) == Some(Parse(tree).skills[name].(files := Parse(tree).skills[name].files - {file}))
  {
    SkillParsed(tree, name);
    SkillFilesChange(tree, name, file, None, author);
    SkillChangeElsewhere(tree, name, file, None, author);
  }

  /** These files of the skill are gone, and everything else is as it was. */
  ghost predicate Cleared(tree: Tree, after: Tree, name: Text, gone: set<Text>) {
    && (forall p :: p in after.files ==> p in tree.files)
    && SkillFilesAt(after, name) == SkillFilesAt(tree, name) - gone
    && (forall s :: s in SCOPES ==> InstructionAt(after, s) == InstructionAt(tree, s))
    && (forall n :: PromptAt(after, n) == PromptAt(tree, n))
    && (forall n :: n != name ==> SkillAt(after, n) == SkillAt(tree, n))
  }

  lemma {:induction false} ClearedTwice(a: Tree, b: Tree, c: Tree, name: Text, first: set<Text>, second: set<Text>)
    requires Cleared(a, b, name, first) && Cleared(b, c, name, second)
    ensures Cleared(a, c, name, first + second)
  {
    hide PathOf, SkillFilesAt, SkillAt, PromptAt, InstructionAt;
    var files := SkillFilesAt(a, name);
    assert files - first - second == files - (first + second);
  }

  lemma {:induction false} OneRemoval(tree: Tree, name: Text, file: Text, author: Author)
    requires IsName(name)
    ensures Cleared(tree, ApplyChange(tree, FileChange(PathOf(SkillFile(name, file)), None), author), name, {file})
  {
    hide PathOf, SkillFilesAt, SkillAt, PromptAt, InstructionAt, IsName;
    SkillFilesChange(tree, name, file, None, author);
    SkillChangeElsewhere(tree, name, file, None, author);
  }

  /** All the files of a skill removed one after another: everything else is as it was. */
  lemma {:induction false} RemovalsRemove(tree: Tree, name: Text, listing: seq<Text>, author: Author)
    requires IsName(name)
    ensures Cleared(tree, ApplyAll(tree, Removals(name, listing), author), name, set f | f in listing)
    decreases |listing|
  {
    hide Cleared, ApplyChange, PathOf, IsName;
    if listing == [] {
      NothingCleared(tree, name);
      assert (set f | f in listing) == {};
    } else {
      var k := |listing| - 1;
      var front := listing[..k];
      RemovalsRemove(tree, name, front, author);
      var before := ApplyAll(tree, Removals(name, front), author);
      assert Removals(name, listing)[..k] == Removals(name, front);
      OneRemoval(before, name, listing[k], author);
      ClearedTwice(tree, before, ApplyAll(tree, Removals(name, listing), author), name, set f | f in front, {listing[k]});
      assert listing == front + [listing[k]];
      assert (set f | f in listing) == (set f | f in front) + {listing[k]};
    }
  }

  lemma {:induction false} NothingCleared(tree: Tree, name: Text)
    ensures Cleared(tree, tree, name, {})
  {
    hide SkillFilesAt;
    assert SkillFilesAt(tree, name) - {} == SkillFilesAt(tree, name);
  }

  lemma {:induction false} SkillGone(tree: Tree, after: Tree, name: Text)
    requires NothingIgnored(tree) && IsName(name)
    requires forall p :: p in after.files ==> p in tree.files
    requires SkillFilesAt(after, name) == map[]
    requires forall s :: s in SCOPES ==> InstructionAt(after, s) == InstructionAt(tree, s)
    requires forall n :: PromptAt(after, n) == PromptAt(tree, n)
    requires forall n :: n != name ==> SkillAt(after, n) == SkillAt(tree, n)
    ensures NothingIgnored(after)
    ensures Parse(after) == Parse(tree).(skills := Parse(tree).skills - {name})
  {
    forall p | p in after.files ensures Explained(after, p) {
      assert Explained(tree, p);
      PathClassified(p);
      if Classify(p).SkillFile? { SkillFileIn(after, Classify(p).name, Classify(p).file); }
    }
    SkillsWithout(tree, after, name);
  }

  lemma {:induction false} SkillsWithout(tree: Tree, after: Tree, name: Text)
    requires NothingIgnored(tree) && NothingIgnored(after)
    requires SkillAt(after, name).None?
    requires forall s :: s in SCOPES ==> InstructionAt(after, s) == InstructionAt(tree, s)
    requires forall n :: PromptAt(after, n) == PromptAt(tree, n)
    requires forall n :: n != name ==> SkillAt(after, n) == SkillAt(tree, n)
    ensures Parse(after) == Parse(tree).(skills := Parse(tree).skills - {name})
  {
    hide Parse, SkillAt, PromptAt, InstructionAt, NothingIgnored;
    ParseServes(tree);
    ServedIsParsed(after, Parse(tree).(skills := Parse(tree).skills - {name}));
  }

  lemma {:induction false} RefineSkillRemoval(tree: Tree, name: Text, path: Option<Text>, author: Author, listing: seq<Text>)
    requires NothingIgnored(tree) && (path == None || path == Some(SKILL_ENTRY_FILE))
    requires PlanSkill(Parse(tree), name, path, None, listing).Ok?
    requires forall f :: f in listing <==> f in Parse(tree).skills[name].files
    ensures var after := ApplyAll(tree, PlanSkill(Parse(tree), name, path, None, listing).value, author);
            NothingIgnored(after) && Parse(after) == Update(Parse(tree), EditSkill(name, path, None), author)
  {
    hide Parse, Read, DescriptionIn, PathOf, ApplyAll, NothingIgnored, IsName, CheckedPath, InstructionAt, PromptAt;
    SkillParsed(tree, name);
    RemovalsRemove(tree, name, listing, author);
    var after := ApplyAll(tree, Removals(name, listing), author);
    assert SkillFilesAt(after, name) == map[];
    SkillGone(tree, after, name);
  }

  /** `listing` enumerates the files of the skill an edit removes. */
  ghost predicate ListsRemoved(current: Customizations, edit: Edit, listing: seq<Text>) {
    edit.EditSkill? && edit.text.None? && edit.name in current.skills ==>
      forall f :: f in listing <==> f in current.skills[edit.name].files
  }

  ghost predicate KnownScope(edit: Edit) {
    edit.EditInstructions? ==> edit.scope in SCOPES
  }

  /**
   Every accepted edit of a store in which nothing is ignored: applying its file
   changes and parsing again is the abstract update, with nothing ignored after it.
   */
  lemma {:induction false} EditRefinesUpdate(tree: Tree, edit: Edit, author: Author, listing: seq<Text>)
    requires Parse(tree).ignored == {} && KnownScope(edit)
    requires ListsRemoved(Parse(tree), edit, listing)
    requires PlanEdit(Parse(tree), edit, listing).Ok?
    ensures Parse(ApplyAll(tree, PlanEdit(Parse(tree), edit, listing).value, author)) == Update(Parse(tree), edit, author)
    ensures Update(Parse(tree), edit, author).ignored == {}
  {
    ParseServes(tree);
    match edit
    case EditInstructions(scope, text) => RefineInstructions(tree, scope, text, author);
    case EditPrompt(name, prompt) => RefinePrompt(tree, name, prompt, author);
    case EditSkill(name, path, text) =>
      if text.Some? {
        RefineSkillWrite(tree, name, path, text.value, author, listing);
      } else if path == None || path == Some(SKILL_ENTRY_FILE) {
        RefineSkillRemoval(tree, name, path, author, listing);
      } else {
        RefineSkillFileRemoval(tree, name, path.value, author, listing);
      }
  }
}
