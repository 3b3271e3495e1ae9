/**
 Which edits of the customizations are accepted (`src/customization/model.ts`), said
 from the entries, the rules and the abstract update alone, and what a refusal means.
 */
module CustomizationAcceptance {
  import opened Options
  import opened JsText
  import opened Frontmatter
  import opened CustomizationModel
  import opened CustomizationPlan
  import opened CustomizationRefinement
  import opened CustomizationLimits

  // ----- The rules ----------------------------------------------------------------------

  predicate IsNameLetter(u: CodeUnit) { IsLower(u) || IsDigit(u) }

  /** Runs of lower-case letters and digits joined by single hyphens, at most 64 characters in all. */
  predicate ValidName(name: Text) { |name| <= 64 && InRuns(name) }

  predicate InRuns(name: Text) {
    forall run :: run in Split(name, DASH) ==> run != [] && forall u :: u in run ==> IsNameLetter(u)
  }

  predicate IsPathUnit(u: CodeUnit) { IsLower(u) || IsUpper(u) || IsDigit(u) || u == UNDERSCORE || u == DOT || u == DASH }

  /** One to four names, none empty, none starting with a dot or a hyphen. */
  predicate ValidPath(path: Text) {
    && |Split(path, SLASH)| <= 4
    && forall s :: s in Split(path, SLASH) ==>
         s != [] && s[0] != DOT && s[0] != DASH && forall u :: u in s ==> IsPathUnit(u)
  }

  predicate NonBlank(t: Text) { exists u :: u in t && !IsSpace(u) }

  predicate OneLine(t: Text) { NonBlank(t) && LF !in Trim(t) }

  /** A skill's entry file that says whose it is, when to load it, and something more. */
  predicate ValidEntryFile(name: Text, text: Text) {
    var document := Read(text);
    && NAME in document.fields && document.fields[NAME] == name
    && DESCRIPTION in document.fields && document.fields[DESCRIPTION] != []
    && !IsBlockScalar(document.fields[DESCRIPTION])
    && NonBlank(document.body)
  }

  /** What the edit leaves in place is not too long, all in all. */
  ghost predicate OwnLimits(c: Customizations, edit: Edit, author: Author) {
    var after := Update(c, edit, author);
    match edit
    case EditInstructions(scope, Some(_)) =>
      scope in after.instructions && |after.instructions[scope].text| <= INSTRUCTION_MAX_CHARS
      && AllInstructions(after, SCOPES) <= INSTRUCTIONS_TOTAL_MAX_CHARS
    case EditPrompt(name, Some(_)) => name in after.prompts && |after.prompts[name].text| <= PROMPT_MAX_CHARS
    case EditSkill(name, _, Some(text)) =>
      name in after.skills && |text| <= SKILL_FILE_MAX_CHARS && |after.skills[name].files| <= SKILL_MAX_FILES
      && TotalLength(after.skills[name].files) <= SKILL_TOTAL_MAX_CHARS
    case _ => true
  }

  /**
   What an edit must be: a valid name and path, a name not taken by the other kind,
   something there to remove, a text that is not blank, and entries not too long.
   */
  ghost predicate Acceptable(c: Customizations, edit: Edit, author: Author) {
    match edit
    case EditInstructions(scope, None) => scope in c.instructions
    case EditInstructions(_, Some(text)) => NonBlank(text) && OwnLimits(c, edit, author)
    case EditPrompt(name, None) => ValidName(name) && name in c.prompts
    case EditPrompt(name, Some(p)) =>
      && ValidName(name) && name !in c.skills && OneLine(p.description) && NonBlank(p.text) && OwnLimits(c, edit, author)
    case EditSkill(name, path, None) =>
      && ValidName(name) && ValidPath(FileOf(path)) && name in c.skills
      && (FileOf(path) == SKILL_ENTRY_FILE || FileOf(path) in c.skills[name].files)
    case EditSkill(name, path, Some(text)) =>
      && ValidName(name) && ValidPath(FileOf(path)) && name !in c.prompts
      && (if FileOf(path) == SKILL_ENTRY_FILE then ValidEntryFile(name, text) else name in c.skills)
      && OwnLimits(c, edit, author)
  }

  // ----- The checks are these rules --------------------------------------------------------

  lemma {:induction false} BlankExactly(t: Text)
    ensures Trim(t) == [] <==> !NonBlank(t)
  {
    TrimTrims(t);
    TrimStartKeepsBack(t);
    TrimEndKeepsFront(TrimStart(t));
    if !NonBlank(t) {
      SpacesTrim(t);
    } else {
      NonBlankTrims(t);
    }
  }

  lemma {:induction false} SpacesTrim(t: Text)
    requires forall u :: u in t ==> IsSpace(u)
    ensures TrimStart(t) == [] && Trim(t) == []
  {
    hide IsSpace;
    if t != [] {
      assert t[0] in t;
      SpacesTrim(t[1..]);
    }
  }

  lemma {:induction false} NonBlankTrims(t: Text)
    requires NonBlank(t)
    ensures Trim(t) != []
  {
    hide IsSpace;
    StartKeepsNonBlank(t);
    EndKeepsNonBlank(TrimStart(t));
  }

  lemma {:induction false} StartKeepsNonBlank(t: Text)
    requires NonBlank(t)
    ensures NonBlank(TrimStart(t))
  {
    hide IsSpace;
    if IsSpace(t[0]) {
      assert t == [t[0]] + t[1..];
      StartKeepsNonBlank(t[1..]);
    }
  }

  lemma {:induction false} EndKeepsNonBlank(t: Text)
    requires NonBlank(t)
    ensures TrimEnd(t) != []
  {
    hide IsSpace;
    var k := |t| - 1;
    if IsSpace(t[k]) {
      assert t == t[..k] + [t[k]];
      EndKeepsNonBlank(t[..k]);
    }
  }

  lemma {:induction false} SplitShape(t: Text, sep: CodeUnit)
    ensures var i := Find(t, sep); Split(t, sep) == if i == |t| then [t] else [t[..i]] + Split(t[i + 1..], sep)
  {
  }

  /** The name pattern: hyphens neither at the ends nor side by side is the same as no empty run. */
  lemma {:induction false} NameExactly(t: Text)
    ensures IsName(t) <==> InRuns(t)
    decreases |t|
  {
    hide Find, Split, IsNameUnit, IsNameLetter;
    SplitShape(t, DASH);
    LettersAreUnits();
    var i := Find(t, DASH);
    var runs := Split(t, DASH);
    assert runs[0] in runs;
    if i == |t| {
      assert t[..i] == t && runs == [t];
      OneRun(t);
    } else {
      var head, rest := t[..i], t[i + 1..];
      NameExactly(rest);
      assert t == head + [DASH] + rest;
      TwoRuns(head, rest);
      assert forall run :: run in runs <==> run == head || run in Split(rest, DASH);
    }
  }

  lemma {:induction false} LettersAreUnits()
    ensures forall u :: IsNameUnit(u) <==> IsNameLetter(u) || u == DASH
    ensures !IsNameLetter(DASH)
  {
  }

  lemma {:induction false} OneRun(t: Text)
    requires DASH !in t
    ensures IsName(t) <==> t != [] && forall u :: u in t ==> IsNameLetter(u)
  {
    LettersAreUnits();
    hide IsNameUnit, IsNameLetter;
    if t != [] { assert t[0] in t && t[|t| - 1] in t; }
    assert forall i :: 0 <= i < |t| ==> t[i] in t;
  }

  lemma {:induction false} TwoRuns(head: Text, rest: Text)
    requires DASH !in head
    ensures IsName(head + [DASH] + rest) <==> head != [] && (forall u :: u in head ==> IsNameLetter(u)) && IsName(rest)
  {
    hide IsName, IsNameLetter;
    if IsName(head + [DASH] + rest) { RunsOfName(head, rest); }
    if head != [] && (forall u :: u in head ==> IsNameLetter(u)) && IsName(rest) { NameOfRuns(head, rest); }
  }

  lemma {:induction false} RunsOfName(head: Text, rest: Text)
    requires DASH !in head && IsName(head + [DASH] + rest)
    ensures head != [] && (forall u :: u in head ==> IsNameLetter(u)) && IsName(rest)
  {
    LettersAreUnits();
    hide IsNameUnit, IsNameLetter;
    var t, k := head + [DASH] + rest, |head|;
    assert t[k] == DASH && t[0] == if head == [] then DASH else head[0];
    assert t[|t| - 1] == if rest == [] then DASH else rest[|rest| - 1];
    assert t[k + 1] == rest[0];
    assert forall u :: u in head || u in rest ==> u in t;
    forall i | 0 < i < |rest| && rest[i] == DASH ensures rest[i - 1] != DASH {
      assert t[k + 1 + i] == DASH && t[k + i] == rest[i - 1];
    }
  }

  lemma {:induction false} NameOfRuns(head: Text, rest: Text)
    requires head != [] && (forall u :: u in head ==> IsNameLetter(u)) && IsName(rest)
    ensures IsName(head + [DASH] + rest)
  {
    LettersAreUnits();
    hide IsNameUnit, IsNameLetter;
    var t, k := head + [DASH] + rest, |head|;
    assert forall i :: 0 <= i < k ==> head[i] in head;
    assert forall i :: 0 <= i < |t| ==> t[i] == if i < k then head[i] else if i == k then DASH else rest[i - k - 1];
    forall u | u in t ensures IsNameUnit(u) {
      assert u in head || u == DASH || u in rest;
    }
  }

  lemma {:induction false} PathExactly(path: Text)
    ensures CheckedPath(path) <==> ValidPath(path)
  {
    hide Split;
    forall s ensures IsSegment(s) <==> s != [] && s[0] != DOT && s[0] != DASH && forall u :: u in s ==> IsPathUnit(u) {
      if s != [] { assert s[0] in s; }
    }
  }

  lemma {:induction false} EntryFileExactly(name: Text, text: Text)
    ensures CheckSkillEntry(name, text).None? <==> ValidEntryFile(name, text)
  {
    hide Read, NonBlank, IsBlockScalar, Trim;
    BlankExactly(Read(text).body);
  }

  // ----- Acceptance -----------------------------------------------------------------------------

  lemma {:induction false} InstructionsAccepted(c: Customizations, scope: Text, text: Text, author: Author)
    requires scope in SCOPES
    ensures PlanInstructions(c, scope, Some(text)).Ok? <==> Acceptable(c, EditInstructions(scope, Some(text)), author)
  {
    hide NonBlank, Trim, PathOf, AllInstructions, InstructionsTotal;
    BlankExactly(text);
    ScopesDistinct();
    TotalOnceSet(c, SCOPES, scope, InstructionEntry(Trim(text), Some(author)));
  }

  lemma {:induction false} PromptAccepted(c: Customizations, name: Text, p: PromptText, author: Author)
    ensures PlanPrompt(c, name, Some(p)).Ok? <==> Acceptable(c, EditPrompt(name, Some(p)), author)
  {
    hide NonBlank, Trim, PathOf, PrintPrompt, TitleOf, IsName, InRuns;
    NameExactly(name);
    BlankExactly(p.description);
    BlankExactly(p.text);
  }

  lemma {:induction false} SkillAccepted(
    c: Customizations, name: Text, path: Option<Text>, text: Text, listing: seq<Text>, author: Author)
    ensures PlanSkill(c, name, path, Some(text), listing).Ok? <==> Acceptable(c, EditSkill(name, path, Some(text)), author)
  {
    hide PathOf, IsName, InRuns, ValidEntryFile, CheckSkillEntry, CheckedPath, ValidPath, Removals, Update, TotalLength, FilesWith;
    var file := FileOf(path);
    NameExactly(name);
    PathExactly(file);
    EntryFileExactly(name, text);
    if file == SKILL_ENTRY_FILE || name in c.skills { var entry := SkillUpdated(c, name, path, text, author); }
  }

  lemma {:induction false} SkillUpdated(c: Customizations, name: Text, path: Option<Text>, text: Text, author: Author)
    returns (entry: SkillEntry)
    requires FileOf(path) == SKILL_ENTRY_FILE || name in c.skills
    ensures Update(c, EditSkill(name, path, Some(text)), author) == c.(skills := c.skills[name := entry])
    ensures entry.files == FilesWith(c, name, FileOf(path), text)
  {
    hide DescriptionIn, FilesWith;
    entry := Update(c, EditSkill(name, path, Some(text)), author).skills[name];
  }

  /** Exactly the edits that keep the rules are accepted, of every kind and from any entries. */
  lemma {:induction false} AcceptedExactly(c: Customizations, edit: Edit, listing: seq<Text>, author: Author)
    requires KnownScope(edit)
    ensures PlanEdit(c, edit, listing).Ok? <==> Acceptable(c, edit, author)
  {
    hide OwnLimits, PlanInstructions, PlanPrompt, PlanSkill, ValidName, ValidPath, NonBlank, OneLine, ValidEntryFile;
    match edit
    case EditInstructions(scope, Some(text)) => InstructionsAccepted(c, scope, text, author);
    case EditPrompt(name, Some(p)) => PromptAccepted(c, name, p, author);
    case EditSkill(name, path, Some(text)) => SkillAccepted(c, name, path, text, listing, author);
    case _ => RemovalAccepted(c, edit, listing, author);
  }

  lemma {:induction false} RemovalAccepted(c: Customizations, edit: Edit, listing: seq<Text>, author: Author)
    requires KnownScope(edit)
    requires match edit case EditInstructions(_, t) => t.None? case EditPrompt(_, p) => p.None? case EditSkill(_, _, t) => t.None?
    ensures PlanEdit(c, edit, listing).Ok? <==> Acceptable(c, edit, author)
  {
    hide IsName, InRuns, PathOf, Removals, CheckedPath, ValidPath;
    match edit
    case EditInstructions(scope, _) => assert edit == EditInstructions(scope, None);
    case EditPrompt(name, _) =>
      NameExactly(name);
      assert edit == EditPrompt(name, None);
    case EditSkill(name, path, _) =>
      NameExactly(name);
      PathExactly(FileOf(path));
      assert edit == EditSkill(name, path, None);
  }

  lemma {:induction false} SkillFilesWithin(c: Customizations, name: Text, file: Text, text: Text)
    requires WithinLimits(c)
    ensures var files := FilesWith(c, name, file, text);
            SkillWithin(files) <==>
              |text| <= SKILL_FILE_MAX_CHARS && |files| <= SKILL_MAX_FILES && TotalLength(files) <= SKILL_TOTAL_MAX_CHARS
  {
    hide TotalLength;
    var files := FilesWith(c, name, file, text);
    assert files[file] == text;
  }

  lemma {:induction false} OneSkill(c: Customizations, name: Text, entry: SkillEntry)
    requires WithinLimits(c)
    ensures WithinLimits(c.(skills := c.skills[name := entry])) <==> SkillWithin(entry.files)
  {
    hide AllInstructions, SkillWithin;
    var after := c.(skills := c.skills[name := entry]);
    OtherTotalsSame(c, after, SCOPES);
    assert after.skills[name] == entry;
  }

  /**
   From entries within the limits, an edit's own limits are all of them: it is accepted,
   as far as lengths go, exactly when the entries are within the limits afterwards.
   */
  lemma {:induction false} OwnLimitsAreAllLimits(c: Customizations, edit: Edit, author: Author)
    requires WithinLimits(c) && KnownScope(edit)
    requires match edit
             case EditInstructions(_, text) => text.Some?
             case EditPrompt(_, prompt) => prompt.Some?
             case EditSkill(name, path, text) => text.Some? && (FileOf(path) == SKILL_ENTRY_FILE || name in c.skills)
    ensures OwnLimits(c, edit, author) <==> WithinLimits(Update(c, edit, author))
  {
    match edit
    case EditInstructions(scope, Some(text)) =>
      hide AllInstructions, SkillWithin, Trim;
      assert Update(c, edit, author).instructions[scope].text == Trim(text);
    case EditPrompt(name, Some(p)) =>
      hide AllInstructions, SkillWithin, Trim, TitleOf;
      OtherTotalsSame(c, Update(c, edit, author), SCOPES);
      assert Update(c, edit, author).prompts[name].text == Trim(p.text);
    case EditSkill(name, path, Some(text)) =>
      hide WithinLimits, Update, SkillWithin, FilesWith, TotalLength;
      var entry := SkillUpdated(c, name, path, text, author);
      assert edit == EditSkill(name, path, Some(text));
      OneSkill(c, name, entry);
      SkillFilesWithin(c, name, FileOf(path), text);
  }

  /** A prompt that is served can be written again, whatever it says now. */
  lemma {:induction false} ServedPromptCanBeWritten(tree: Tree, name: Text, p: PromptText, listing: seq<Text>)
    requires name in Parse(tree).prompts && ValidName(name)
    requires OneLine(p.description) && NonBlank(p.text) && |Trim(p.text)| <= PROMPT_MAX_CHARS
    ensures PlanEdit(Parse(tree), EditPrompt(name, Some(p)), listing).Ok?
  {
    hide Parse, NonBlank, Trim, TitleOf, ValidName, PlanEdit, AllInstructions;
    NamesDisjoint(tree);
    var c, author := Parse(tree), Author([], []);
    AcceptedExactly(c, EditPrompt(name, Some(p)), listing, author);
  }

  /** And so can a file of a skill that is served, with a text no longer than the one it has. */
  lemma {:induction false} ServedSkillFileCanBeWritten(tree: Tree, name: Text, file: Text, text: Text, listing: seq<Text>)
    requires WithinLimits(Parse(tree)) && name in Parse(tree).skills && file in Parse(tree).skills[name].files
    requires ValidName(name) && ValidPath(file) && (file == SKILL_ENTRY_FILE ==> ValidEntryFile(name, text))
    requires |text| <= |Parse(tree).skills[name].files[file]|
    ensures PlanEdit(Parse(tree), EditSkill(name, Some(file), Some(text)), listing).Ok?
  {
    hide Parse, ValidName, ValidPath, ValidEntryFile, PlanEdit, AllInstructions, TotalLength;
    NamesDisjoint(tree);
    var c, author := Parse(tree), Author([], []);
    var entry := SkillUpdated(c, name, Some(file), text, author);
    var files := c.skills[name].files;
    TotalWithout(files, file);
    TotalWithout(files[file := text], file);
    assert files[file := text] - {file} == files - {file} && files[file := text].Keys == files.Keys;
    assert |files[file := text]| == |files[file := text].Keys| && |files| == |files.Keys|;
    AcceptedExactly(c, EditSkill(name, Some(file), Some(text)), listing, author);
  }

  // ----- Refusals -----------------------------------------------------------------------------------

  /** The rule an error stands for is broken. */
  ghost predicate Breaks(c: Customizations, edit: Edit, error: PlanError, author: Author) {
    match error
    case InvalidName => !edit.EditInstructions? && !ValidName(edit.name)
    case InvalidPath => edit.EditSkill? && !ValidPath(FileOf(edit.path))
    case NotSet =>
      match edit {
        case EditInstructions(scope, text) => text.None? && scope !in c.instructions
        case EditPrompt(name, prompt) => prompt.None? && name !in c.prompts
        case EditSkill(name, path, text) =>
          text.None? && (name !in c.skills || FileOf(path) !in c.skills[name].files)
      }
    case NameTaken => (edit.EditPrompt? && edit.name in c.skills) || (edit.EditSkill? && edit.name in c.prompts)
    case EmptyText =>
      match edit {
        case EditInstructions(_, text) => text.Some? && !NonBlank(text.value)
        case EditPrompt(_, prompt) => prompt.Some? && !NonBlank(prompt.value.text)
        case EditSkill(_, _, text) => text.Some? && !NonBlank(Read(text.value).body)
      }
    case NoDescription =>
      match edit {
        case EditInstructions(_, _) => false
        case EditPrompt(_, prompt) => prompt.Some? && !OneLine(prompt.value.description)
        case EditSkill(name, _, text) => text.Some? && !ValidEntryFile(name, text.value)
      }
    case WrongName => edit.EditSkill? && edit.text.Some? && FieldOf(Read(edit.text.value), NAME) != Some(edit.name)
    case NoEntryFile => edit.EditSkill? && edit.name !in c.skills && FileOf(edit.path) != SKILL_ENTRY_FILE
    case TooLong => !OwnLimits(c, edit, author)
    case TotalTooLong => !OwnLimits(c, edit, author)
    case TooManyFiles => !OwnLimits(c, edit, author)
  }

  /** A refused edit names a rule it really breaks. */
  lemma {:induction false} RefusalNamesARule(c: Customizations, edit: Edit, listing: seq<Text>, author: Author)
    requires KnownScope(edit) && PlanEdit(c, edit, listing).Err?
    ensures Breaks(c, edit, PlanEdit(c, edit, listing).error, author)
  {
    hide OwnLimits, Update, NonBlank, IsName, InRuns, Read, TotalLength, InstructionsTotal, PathOf,
         PrintPrompt, Trim, Removals, CheckedPath, ValidPath, TitleOf, IsBlockScalar;
    match edit
    case EditInstructions(scope, text) =>
      assert edit == EditInstructions(scope, text);
      if text.Some? {
        BlankExactly(text.value);
        InstructionsAccepted(c, scope, text.value, author);
      } else {
        assert PlanInstructions(c, scope, None) == Err(NotSet);
      }
    case EditPrompt(name, prompt) =>
      NameExactly(name);
      if prompt.Some? {
        BlankExactly(prompt.value.description);
        BlankExactly(prompt.value.text);
        PromptAccepted(c, name, prompt.value, author);
        assert edit == EditPrompt(name, Some(prompt.value));
      }
    case EditSkill(name, path, text) =>
      NameExactly(name);
      PathExactly(FileOf(path));
      if text.Some? {
        BlankExactly(Read(text.value).body);
        EntryFileExactly(name, text.value);
        SkillAccepted(c, name, path, text.value, listing, author);
        assert edit == EditSkill(name, path, Some(text.value));
      }
  }
}
