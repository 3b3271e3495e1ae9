/**
 The size limits of the customization store, kept by every accepted edit
 (`src/customization/model.ts`).
 */
module CustomizationLimits {
  import opened Options
  import opened JsText
  import opened CustomizationModel
  import opened CustomizationPlan
  import opened CustomizationRefinement

  // ----- Totals -------------------------------------------------------------------

  /** The total does not depend on the order in which the files are added up. */
  lemma {:induction false} TotalWithout(files: map<Text, Text>, f: Text)
    requires f in files
    ensures TotalLength(files) == |files[f]| + TotalLength(files - {f})
    decreases |files|
  {
    var g :| g in files && TotalLength(files) == |files[g]| + TotalLength(files - {g});
    if g != f {
      assert |files - {g}| < |files| && |files - {f}| < |files|;
      TotalWithout(files - {g}, f);
      TotalWithout(files - {f}, g);
      assert files - {g} - {f} == files - {f} - {g};
    }
  }

  /** `reduce` over the values of a map. */
  method SumLengths(files: map<Text, Text>) returns (total: nat)
    ensures total == TotalLength(files)
  {
    total := 0;
    var rest := files;
    while rest != map[]
      invariant total + TotalLength(rest) == TotalLength(files)
      decreases |rest|
    {
      var f :| f in rest;
      TotalWithout(rest, f);
      total := total + |rest[f]|;
      rest := rest - {f};
    }
  }

  function AllInstructions(c: Customizations, scopes: seq<Text>): nat {
    if scopes == [] then 0 else TextLength(c, scopes[0]) + AllInstructions(c, scopes[1..])
  }

  ghost predicate DistinctTexts(ts: seq<Text>) {
    forall i, j :: 0 <= i < j < |ts| ==> ts[i] != ts[j]
  }

  /** The planned total is the total once the scope holds the new text. */
  lemma {:induction false} TotalOnceSet(c: Customizations, scopes: seq<Text>, scope: Text, entry: InstructionEntry)
    requires DistinctTexts(scopes)
    ensures var after := c.(instructions := c.instructions[scope := entry]);
            AllInstructions(after, scopes) <= InstructionsTotal(c, scopes, scope, |entry.text|)
            && (scope !in scopes ==> AllInstructions(after, scopes) + |entry.text| == InstructionsTotal(c, scopes, scope, |entry.text|))
            && (scope in scopes ==> AllInstructions(after, scopes) == InstructionsTotal(c, scopes, scope, |entry.text|))
  {
    if scopes != [] {
      assert forall i :: 0 <= i < |scopes[1..]| ==> scopes[1..][i] == scopes[i + 1];
      TotalOnceSet(c, scopes[1..], scope, entry);
      assert scope in scopes <==> scope == scopes[0] || scope in scopes[1..];
      if scope == scopes[0] { assert scope !in scopes[1..]; }
    }
  }

  lemma {:induction false} TotalOnceRemoved(c: Customizations, scopes: seq<Text>, scope: Text)
    ensures AllInstructions(c.(instructions := c.instructions - {scope}), scopes) <= AllInstructions(c, scopes)
  {
    if scopes != [] { TotalOnceRemoved(c, scopes[1..], scope); }
  }

  lemma {:induction false} ScopesDistinct()
    ensures DistinctTexts(SCOPES)
  {
    assert |SCOPE_GLOBAL| == 6 && |SCOPE_TICKETS| == 7 && |SCOPE_HELP_CENTER| == 11
        && |SCOPE_USERS| == 5 && |SCOPE_REQUESTS| == 8 && |SCOPE_PREFERENCES| == 11;
    assert SCOPE_HELP_CENTER[0] != SCOPE_PREFERENCES[0];
  }

  // ----- Limits ---------------------------------------------------------------------

  ghost predicate SkillWithin(files: map<Text, Text>) {
    && (forall f :: f in files ==> |files[f]| <= SKILL_FILE_MAX_CHARS)
    && |files| <= SKILL_MAX_FILES
    && TotalLength(files) <= SKILL_TOTAL_MAX_CHARS
  }

  ghost predicate WithinLimits(c: Customizations) {
    && (forall s :: s in c.instructions ==> |c.instructions[s].text| <= INSTRUCTION_MAX_CHARS)
    && AllInstructions(c, SCOPES) <= INSTRUCTIONS_TOTAL_MAX_CHARS
    && (forall n :: n in c.prompts ==> |c.prompts[n].text| <= PROMPT_MAX_CHARS)
    && (forall n :: n in c.skills ==> SkillWithin(c.skills[n].files))
  }

  lemma {:induction false} OtherTotalsSame(a: Customizations, b: Customizations, scopes: seq<Text>)
    requires a.instructions == b.instructions
    ensures AllInstructions(a, scopes) == AllInstructions(b, scopes)
  {
    if scopes != [] { OtherTotalsSame(a, b, scopes[1..]); }
  }

  lemma {:induction false} FewerFilesWithin(files: map<Text, Text>, file: Text)
    requires SkillWithin(files)
    ensures SkillWithin(files - {file})
  {
    if file in files {
      TotalWithout(files, file);
      assert |files - {file}| <= |files|;
    } else {
      assert files - {file} == files;
    }
  }

  lemma {:induction false} InstructionsKeepLimits(c: Customizations, scope: Text, text: Option<Text>, author: Author)
    requires WithinLimits(c) && scope in SCOPES && PlanInstructions(c, scope, text).Ok?
    ensures WithinLimits(Update(c, EditInstructions(scope, text), author))
  {
    if text.None? {
      TotalOnceRemoved(c, SCOPES, scope);
    } else {
      ScopesDistinct();
      TotalOnceSet(c, SCOPES, scope, InstructionEntry(Trim(text.value), Some(author)));
    }
  }

  lemma {:induction false} PromptKeepsLimits(c: Customizations, name: Text, prompt: Option<PromptText>, author: Author)
    requires WithinLimits(c) && PlanPrompt(c, name, prompt).Ok?
    ensures WithinLimits(Update(c, EditPrompt(name, prompt), author))
  {
    OtherTotalsSame(c, Update(c, EditPrompt(name, prompt), author), SCOPES);
  }

  lemma {:induction false} AcceptedFilesWithin(c: Customizations, name: Text, path: Option<Text>, text: Text, listing: seq<Text>)
    requires WithinLimits(c) && PlanSkill(c, name, path, Some(text), listing).Ok?
    ensures SkillWithin(FilesWith(c, name, FileOf(path), text))
  {
    hide AllInstructions, Removals, CheckSkillEntry, PathOf, CheckedName, CheckedPath, TotalLength;
  }

  lemma {:induction false} SkillKeepsLimits(c: Customizations, name: Text, path: Option<Text>, text: Option<Text>, listing: seq<Text>, author: Author)
    requires WithinLimits(c) && PlanSkill(c, name, path, text, listing).Ok?
    ensures WithinLimits(Update(c, EditSkill(name, path, text), author))
  {
    hide AllInstructions, SkillWithin, FilesWith, DescriptionIn, PlanSkill;
    OtherTotalsSame(c, Update(c, EditSkill(name, path, text), author), SCOPES);
    if text.Some? {
      AcceptedFilesWithin(c, name, path, text.value, listing);
    } else if FileOf(path) != SKILL_ENTRY_FILE {
      RemovedSkillIsThere(c, name, path, listing);
      FewerFilesWithin(c.skills[name].files, FileOf(path));
    }
  }

  lemma {:induction false} RemovedSkillIsThere(c: Customizations, name: Text, path: Option<Text>, listing: seq<Text>)
    requires PlanSkill(c, name, path, None, listing).Ok?
    ensures name in c.skills
  {
    hide Removals, CheckSkillEntry, PathOf, CheckedName, CheckedPath;
  }

  /** An accepted edit of entries within the limits leaves them within the limits. */
  lemma {:induction false} EditKeepsLimits(c: Customizations, edit: Edit, listing: seq<Text>, author: Author)
    requires WithinLimits(c) && KnownScope(edit) && PlanEdit(c, edit, listing).Ok?
    ensures WithinLimits(Update(c, edit, author))
  {
    match edit
    case EditInstructions(scope, text) => InstructionsKeepLimits(c, scope, text, author);
    case EditPrompt(name, prompt) => PromptKeepsLimits(c, name, prompt, author);
    case EditSkill(name, path, text) => SkillKeepsLimits(c, name, path, text, listing, author);
  }
}
