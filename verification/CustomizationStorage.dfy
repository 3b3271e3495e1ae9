/**
 The two stores of the customizations (`src/customization/backend.ts`) and what an
 accepted edit becomes in each. The memory store keeps everything as it is. The file
 store writes UTF-8, and does not list files named like its own temporary ones.
 */
module CustomizationStorage {
  import opened Options
  import opened JsText
  import opened Frontmatter
  import opened StoredText
  import opened CustomizationModel
  import opened CustomizationPlan
  import opened CustomizationRefinement
  import opened CustomizationLimits
  import Json

  datatype Store = Memory | Files

  const TMP: Text := [DOT, 116, 109, 112]  // ".tmp"
  const AUTHORS_FILE: Text := [DOT, 97, 117, 116, 104, 111, 114, 115, DOT, 106, 115, 111, 110]  // ".authors.json"

  predicate IsTempUnit(u: CodeUnit) { IsDigit(u) || 97 <= u <= 102 || u == DASH }

  /** A name ending in a dot, 36 hexadecimal digits or hyphens, and `.tmp`. */
  predicate TempLike(name: Text) {
    var n := |name|;
    && n >= 41 && name[n - 41] == DOT && name[n - 4..] == TMP
    && forall u :: u in name[n - 40..n - 4] ==> IsTempUnit(u)
  }

  /** A file the store holds but never lists; the ending of a path is that of its last segment. */
  predicate Hidden(path: Text) { TempLike(path) || path == AUTHORS_FILE }

  /** What `load` returns for what the store holds. */
  function View(store: Store, held: Tree): Tree {
    if store.Memory? then held
    else Tree(map p | p in held.files && !Hidden(p) :: held.files[p], held.authors)
  }

  /** A change as the store holds it: file contents as they will be read back. */
  function Kept(store: Store, change: FileChange): FileChange {
    if store.Files? && change.content.Some? then change.(content := Some(Stored(change.content.value))) else change
  }

  function AllKept(store: Store, changes: seq<FileChange>): (kept: seq<FileChange>)
    ensures |kept| == |changes|
  {
    seq(|changes|, i requires 0 <= i < |changes| => Kept(store, changes[i]))
  }

  // ----- The file store ----------------------------------------------------------------------

  /** A directory of files by the text they read as, and the authors record beside them. */
  class FileBackend {
    var files: map<Text, Text>
    var recorded: map<Text, Author>

    function Held(): Tree
      reads this
    {
      Tree(files, recorded)
    }

    constructor (files: map<Text, Text>, recorded: map<Text, Author>)
      ensures Held() == Tree(files, recorded)
    {
      this.files, this.recorded := files, recorded;
    }

    function Load(): Tree
      reads this
    {
      View(Files, Held())
    }

    /**
     The change loop over the disk: the change at `completed` throws, if there is one,
     and the authors are written last, if `authorsWritten`.
     */
    method Apply(changes: seq<FileChange>, author: Author, completed: nat, authorsWritten: bool) returns (failed: bool)
      requires completed <= |changes|
      modifies this
      ensures failed <==> completed < |changes| || !authorsWritten
      ensures var whole := ApplyAll(old(Held()), AllKept(Files, changes)[..completed], author);
              Held() == if failed then Tree(whole.files, old(recorded)) else whole
    {
      hide Stored;
      ghost var kept := AllKept(Files, changes);
      var authors := recorded;
      for i := 0 to completed
        invariant recorded == old(recorded)
        invariant Tree(files, authors) == ApplyAll(old(Held()), kept[..i], author)
      {
        assert kept[..i + 1][..i] == kept[..i];
        var FileChange(path, content) := changes[i];
        if content.None? {
          files, authors := files - {path}, authors - {path};
        } else {
          files, authors := files[path := Stored(content.value)], authors[path := author];
        }
      }
      if completed < |changes| || !authorsWritten { return true; }
      recorded := authors;
      return false;
    }
  }

  // ----- What an edit becomes ------------------------------------------------------------------

  /** A skill file the store writes and then never lists. */
  predicate Vanishes(store: Store, edit: Edit) {
    store.Files? && edit.EditSkill? && edit.text.Some? && TempLike(FileOf(edit.path))
  }

  /** The edit with its texts as the store gives them back; a prompt's title and description are JSON, and safe. */
  function StoredEdit(store: Store, edit: Edit): Edit {
    if store.Memory? then edit
    else
      match edit
      case EditInstructions(scope, text) =>
        if text.None? then edit else EditInstructions(scope, Some(Stored(Trim(text.value))))
      case EditPrompt(name, prompt) =>
        if prompt.None? then edit else EditPrompt(name, Some(prompt.value.(text := Stored(Trim(prompt.value.text)))))
      case EditSkill(name, path, text) =>
        if text.None? then edit else EditSkill(name, path, Some(Stored(text.value)))
  }

  /** What the entries become once the edit is stored. */
  function StoredUpdate(store: Store, c: Customizations, edit: Edit, author: Author): Customizations {
    if Vanishes(store, edit) then c else Update(c, StoredEdit(store, edit), author)
  }

  /** The store gives this edit back as it was made: well-formed texts, and no file named like a temporary one. */
  predicate Survives(store: Store, edit: Edit) {
    store.Memory? ||
    match edit
    case EditInstructions(_, text) => text.Some? ==> WellFormed(Trim(text.value))
    case EditPrompt(_, prompt) => prompt.Some? ==> WellFormed(Trim(prompt.value.text))
    case EditSkill(_, path, text) => text.Some? ==> WellFormed(text.value) && !TempLike(FileOf(path))
  }

  // ----- Stored texts are planned alike -----------------------------------------------------------

  lemma {:induction false} StoredKeepsLength(t: Text)
    ensures |Stored(t)| == |t|
  {
    StoredIsAlike(t);
  }

  lemma {:induction false} StoredKeepsTrimmed(t: Text)
    requires Trimmed(t)
    ensures Trimmed(Stored(t)) && Trim(Stored(t)) == Stored(t)
    ensures t == [] <==> Stored(t) == []
  {
    hide Stored;
    StoredIsAlike(t);
    var s := Stored(t);
    if t != [] {
      assert SameUnit(t[0], s[0]) && SameUnit(t[|t| - 1], s[|s| - 1]);
      SameSpace(t[0], s[0]);
      SameSpace(t[|t| - 1], s[|s| - 1]);
    }
    TrimTrims(s);
  }

  lemma {:induction false} KeptOne(store: Store, change: FileChange)
    ensures AllKept(store, [change]) == [Kept(store, change)]
  {
  }

  lemma {:induction false} StoredLine(t: Text)
    ensures Stored(t + [LF]) == Stored(t) + [LF]
  {
    hide Stored;
    StoredConcat(t, [LF]);
    StoredWhole([LF]);
  }

  lemma {:induction false} PlanStoredInstructions(c: Customizations, scope: Text, text: Text)
    requires scope in SCOPES && PlanInstructions(c, scope, Some(text)).Ok?
    ensures PlanInstructions(c, scope, Some(Stored(Trim(text))))
         == Ok(AllKept(Files, PlanInstructions(c, scope, Some(text)).value))
  {
    hide Stored, Trim, PathOf, InstructionsTotal, Trimmed;
    TrimTrims(text);
    StoredKeepsTrimmed(Trim(text));
    StoredKeepsLength(Trim(text));
    StoredLine(Trim(text));
    KeptOne(Files, FileChange(PathOf(Instruction(scope)), Some(Trim(text) + [LF])));
  }

  lemma {:induction false} StoredFieldLine(key: Text, value: Text)
    requires forall u :: u in key ==> !IsSurrogate(u)
    ensures Stored(FieldLine(key, value)) == FieldLine(key, value)
    ensures FieldLine(key, value) != [] && FieldLine(key, value)[|FieldLine(key, value)| - 1] == QUOTE
  {
    hide Stored, Json.Escape;
    var head, escaped := key + [COLON, SPACE, QUOTE], Json.Escape(value);
    assert FieldLine(key, value) == head + (escaped + [QUOTE]);
    StoredWhole(head);
    StoredWhole([QUOTE]);
    StoredEscape(value);
    StoredConcat(escaped, [QUOTE]);
    StoredConcat(head, escaped + [QUOTE]);
  }

  lemma {:induction false} StoredHeader(title: Option<Text>, description: Text)
    ensures Stored(Header(title, description)) == Header(title, description)
    ensures Header(title, description) != [] && Header(title, description)[|Header(title, description)| - 1] == QUOTE
  {
    hide Stored, FieldLine;
    StoredFieldLine(DESCRIPTION, description);
    if title.Some? {
      StoredFieldLine(TITLE, title.value);
      StoredWhole([LF]);
      var first, second := FieldLine(TITLE, title.value), FieldLine(DESCRIPTION, description);
      StoredConcat(first, [LF]);
      StoredConcat(first + [LF], second);
    }
  }

  lemma {:induction false} StoredPrompt(title: Option<Text>, description: Text, text: Text)
    ensures Stored(PrintPrompt(title, description, text)) == PrintPrompt(title, description, Stored(text))
  {
    hide Stored, Header;
    var open, header, close := DASHES + [LF], Header(title, description), [LF] + DASHES + [LF, LF];
    assert PrintPrompt(title, description, text) == open + header + close + (text + [LF]);
    assert PrintPrompt(title, description, Stored(text)) == open + header + close + (Stored(text) + [LF]);
    StoredHeader(title, description);
    StoredWhole(open);
    StoredWhole(close);
    StoredLine(text);
    StoredConcat(open, header);
    StoredConcat(open + header, close);
    StoredConcat(open + header + close, text + [LF]);
  }

  lemma {:induction false} PlanStoredPrompt(c: Customizations, name: Text, p: PromptText)
    requires PlanPrompt(c, name, Some(p)).Ok?
    ensures PlanPrompt(c, name, Some(p.(text := Stored(Trim(p.text)))))
         == Ok(AllKept(Files, PlanPrompt(c, name, Some(p)).value))
  {
    hide Stored, Trim, PathOf, PrintPrompt, Trimmed, IsName;
    TrimTrims(p.text);
    StoredKeepsTrimmed(Trim(p.text));
    StoredKeepsLength(Trim(p.text));
    StoredPrompt(TitleOf(p), Trim(p.description), Trim(p.text));
    KeptOne(Files, FileChange(PathOf(Prompt(name)), Some(PrintPrompt(TitleOf(p), Trim(p.description), Trim(p.text)))));
  }

  lemma {:induction false} KeysAreWhole(name: Text)
    requires IsName(name)
    ensures Whole(NAME) && Whole(DESCRIPTION) && Whole(name)
  {
  }

  /** A skill's entry file passes the same checks as it comes back from disk. */
  lemma {:induction false} StoredEntryChecks(name: Text, text: Text)
    requires IsName(name) && CheckSkillEntry(name, text).None?
    ensures CheckSkillEntry(name, Stored(text)).None?
  {
    hide Stored, Read, Alike, Whole, Trim, IsName, IsBlockScalar;
    KeysAreWhole(name);
    StoredDocument(text, NAME);
    StoredDocument(text, DESCRIPTION);
    AlikeWhole(name, Lookup(Read(Stored(text)).fields, NAME).value);
    var a, b := Read(text).fields[DESCRIPTION], Read(Stored(text)).fields[DESCRIPTION];
    SameLength(a, b);
    if IsBlockScalar(b) { SameScalar(a, b); }
    AlikeTrim(Read(text).body, Read(Stored(text)).body);
    SameLength(Trim(Read(text).body), Trim(Read(Stored(text)).body));
  }

  lemma {:induction false} SameScalar(a: Text, b: Text)
    requires Alike(a, b) && IsBlockScalar(b)
    ensures IsBlockScalar(a)
  {
    AlikeWhole(a, b);
  }

  lemma {:induction false} SameTotal(files: map<Text, Text>, file: Text, a: Text, b: Text)
    requires |a| == |b|
    ensures TotalLength(files[file := a]) == TotalLength(files[file := b])
    ensures |files[file := a]| == |files[file := b]|
  {
    TotalWithout(files[file := a], file);
    TotalWithout(files[file := b], file);
    assert files[file := a] - {file} == files[file := b] - {file};
    assert files[file := a].Keys == files[file := b].Keys;
    assert |files[file := a]| == |files[file := a].Keys| && |files[file := b]| == |files[file := b].Keys|;
  }

  lemma {:induction false} PlanStoredSkill(
    c: Customizations, name: Text, path: Option<Text>, text: Text, listing: seq<Text>)
    requires PlanSkill(c, name, path, Some(text), listing).Ok?
    ensures PlanSkill(c, name, path, Some(Stored(text)), listing)
         == Ok(AllKept(Files, PlanSkill(c, name, path, Some(text), listing).value))
  {
    hide Stored, PathOf, CheckSkillEntry, CheckedPath, IsName, TotalLength, Removals;
    var file := FileOf(path);
    StoredKeepsLength(text);
    if file == SKILL_ENTRY_FILE { StoredEntryChecks(name, text); }
    KeptOne(Files, FileChange(PathOf(SkillFile(name, file)), Some(text)));
    SameTotal(if name in c.skills then c.skills[name].files else map[], file, text, Stored(text));
  }

  lemma {:induction false} RemovalsKept(changes: seq<FileChange>, store: Store)
    requires store.Memory? || forall i :: 0 <= i < |changes| ==> changes[i].content.None?
    ensures AllKept(store, changes) == changes
  {
  }

  /** The changes as the store keeps them are those planned for the stored edit, which is accepted too. */
  lemma {:induction false} PlanStored(store: Store, c: Customizations, edit: Edit, listing: seq<Text>)
    requires KnownScope(edit) && PlanEdit(c, edit, listing).Ok?
    ensures KnownScope(StoredEdit(store, edit))
    ensures PlanEdit(c, StoredEdit(store, edit), listing) == Ok(AllKept(store, PlanEdit(c, edit, listing).value))
  {
    hide Stored, Trim, PathOf, PlanInstructions, PlanPrompt, PlanSkill, AllKept;
    if store.Memory? {
      RemovalsKept(PlanEdit(c, edit, listing).value, store);
    } else {
      match edit
      case EditInstructions(scope, Some(text)) => PlanStoredInstructions(c, scope, text);
      case EditPrompt(name, Some(p)) => PlanStoredPrompt(c, name, p);
      case EditSkill(name, path, Some(text)) => PlanStoredSkill(c, name, path, text, listing);
      case _ =>
        RemovalPlan(c, edit, listing);
        RemovalsKept(PlanEdit(c, edit, listing).value, store);
    }
  }

  predicate Removes(edit: Edit) {
    match edit
    case EditInstructions(_, text) => text.None?
    case EditPrompt(_, prompt) => prompt.None?
    case EditSkill(_, _, text) => text.None?
  }

  lemma {:induction false} RemovalPlan(c: Customizations, edit: Edit, listing: seq<Text>)
    requires KnownScope(edit) && Removes(edit) && PlanEdit(c, edit, listing).Ok?
    ensures var changes := PlanEdit(c, edit, listing).value;
            forall i :: 0 <= i < |changes| ==> changes[i].content.None?
  {
    hide PathOf;
  }

  // ----- What the store then lists --------------------------------------------------------------

  /** Entries live in files the store lists: their names end in ".md". */
  lemma {:induction false} EntriesAreListed(path: Text)
    requires |path| >= 3 && path[|path| - 3..] == MARKDOWN && path[0] != DOT
    ensures !Hidden(path)
  {
    var n := |path|;
    assert path[n - 3..][2] == path[n - 1];
    assert n >= 41 ==> path[n - 4..][3] == path[n - 1];
  }

  lemma {:induction false} EndsInMarkdown(head: Text, name: Text)
    requires head != [] && head[0] != DOT
    ensures var path := head + (name + MARKDOWN); |path| >= 3 && path[|path| - 3..] == MARKDOWN && path[0] != DOT
  {
    var path := head + (name + MARKDOWN);
    assert path == head + name + MARKDOWN;
  }

  lemma {:induction false} EntryPathsAreListed(place: Place)
    requires ValidPlace(place) && (place.SkillFile? ==> place.file == SKILL_ENTRY_FILE)
    ensures !Hidden(PathOf(place))
  {
    hide IsName;
    match place
    case Instruction(scope) =>
      EndsInMarkdown(INSTRUCTIONS + [SLASH], scope);
      EntriesAreListed(PathOf(place));
    case Prompt(name) =>
      EndsInMarkdown(PROMPTS + [SLASH], name);
      EntriesAreListed(PathOf(place));
    case SkillFile(name, file) =>
      var skill: Text := [83, 75, 73, 76, 76];
      EndsInMarkdown(SKILLS + [SLASH] + (name + [SLASH]), skill);
      assert PathOf(place) == SKILLS + [SLASH] + (name + [SLASH]) + (skill + MARKDOWN);
      EntriesAreListed(PathOf(place));
  }

  /** A skill file is hidden by its own name: nothing before the last slash matters. */
  lemma {:induction false} HiddenByName(name: Text, file: Text)
    requires IsName(name)
    ensures Hidden(PathOf(SkillFile(name, file))) <==> TempLike(file)
  {
    hide IsName;
    var head := SKILLS + [SLASH] + (name + [SLASH]);
    var path := PathOf(SkillFile(name, file));
    assert path == head + file;
    assert path[0] != DOT && AUTHORS_FILE[0] == DOT;
    TempByEnding(head, file);
  }

  lemma {:induction false} TempByEnding(head: Text, file: Text)
    requires head != [] && head[|head| - 1] == SLASH
    ensures TempLike(head + file) <==> TempLike(file)
  {
    var path := head + file;
    var n, k := |path|, |file|;
    if k >= 41 {
      assert path[n - 41] == file[k - 41];
      assert path[n - 4..] == file[k - 4..];
      assert path[n - 40..n - 4] == file[k - 40..k - 4];
    } else if n >= 41 {
      assert path[n - k - 1] == SLASH;
      if k <= 3 {
        assert path[n - 4..][3 - k] == SLASH;
        assert SLASH !in TMP;
        assert path[n - 4..] != TMP;
      } else if k < 40 {
        assert path[n - 40..n - 4][39 - k] == path[n - k - 1];
        var middle := path[n - 40..n - 4];
        assert SLASH in middle && !IsTempUnit(SLASH);
        assert |path| == n;
      } else {
        assert path[n - 41] == SLASH;
      }
    }
  }

  lemma {:induction false} ViewChange(store: Store, held: Tree, change: FileChange, author: Author)
    requires change.content.Some? ==> !Hidden(change.path)
    ensures View(store, ApplyChange(held, change, author)) == ApplyChange(View(store, held), change, author)
  {
    hide Hidden;
    if store.Files? {
      var a, b := View(store, ApplyChange(held, change, author)).files, ApplyChange(View(store, held), change, author).files;
      assert a.Keys == b.Keys;
      assert a == b;
    }
  }

  lemma {:induction false} ViewChanges(store: Store, held: Tree, changes: seq<FileChange>, author: Author)
    requires forall i :: 0 <= i < |changes| && changes[i].content.Some? ==> !Hidden(changes[i].path)
    ensures View(store, ApplyAll(held, changes, author)) == ApplyAll(View(store, held), changes, author)
    decreases |changes|
  {
    hide View, Hidden, ApplyChange;
    if changes != [] {
      var k := |changes| - 1;
      ViewChanges(store, held, changes[..k], author);
      ViewChange(store, ApplyAll(held, changes[..k], author), changes[k], author);
    }
  }

  /** The paths an accepted edit writes are listed, unless it vanishes. */
  lemma {:induction false} WritesAreListed(store: Store, c: Customizations, edit: Edit, listing: seq<Text>)
    requires KnownScope(edit) && PlanEdit(c, edit, listing).Ok? && (store.Files? ==> !Vanishes(store, edit))
    ensures store.Files? ==>
      var changes := PlanEdit(c, edit, listing).value;
      forall i :: 0 <= i < |changes| && changes[i].content.Some? ==> !Hidden(changes[i].path)
  {
    hide PathOf, IsName, Hidden, TempLike, Trim, PrintPrompt, CheckSkillEntry, CheckedPath, Removals, TotalLength;
    match edit
    case EditInstructions(scope, _) => EntryPathsAreListed(Instruction(scope));
    case EditPrompt(name, _) => if IsName(name) { EntryPathsAreListed(Prompt(name)); }
    case EditSkill(name, path, text) =>
      if text.None? {
        RemovalPlan(c, edit, listing);
      } else if IsName(name) {
        HiddenByName(name, FileOf(path));
      }
  }

  /** A file the store never lists changes no entry. */
  lemma {:induction false} HiddenChangesNothing(held: Tree, name: Text, file: Text, content: Text, author: Author)
    requires IsName(name) && TempLike(file) && NothingIgnored(View(Files, held))
    ensures Parse(View(Files, ApplyChange(held, FileChange(PathOf(SkillFile(name, file)), Some(content)), author)))
         == Parse(View(Files, held))
  {
    hide Hidden, TempLike, IsName, PathOf, Parse, NothingIgnored;
    HiddenByName(name, file);
    var path := PathOf(SkillFile(name, file));
    var a := View(Files, held);
    var b := View(Files, ApplyChange(held, FileChange(path, Some(content)), author));
    HiddenFile(held, path, content, author);
    SameEntries(a, b, path);
  }

  lemma {:induction false} HiddenFile(held: Tree, path: Text, content: Text, author: Author)
    requires Hidden(path)
    ensures var a, b := View(Files, held), View(Files, ApplyChange(held, FileChange(path, Some(content)), author));
            b.files == a.files && b.authors == a.authors[path := author]
  {
    hide Hidden;
    var a, b := View(Files, held), View(Files, ApplyChange(held, FileChange(path, Some(content)), author));
    assert a.files.Keys == b.files.Keys;
  }

  lemma {:induction false} SameEntries(a: Tree, b: Tree, path: Text)
    requires Hidden(path) && b.files == a.files && NothingIgnored(a)
    requires forall p :: p != path ==> AuthorOf(a, p) == AuthorOf(b, p)
    ensures Parse(b) == Parse(a)
  {
    hide Hidden, IsName, PathOf, Parse, NothingIgnored, SkillFilesAt;
    forall s | s in SCOPES ensures InstructionAt(a, s) == InstructionAt(b, s) { EntryPathsAreListed(Instruction(s)); }
    forall n ensures PromptAt(a, n) == PromptAt(b, n) { if IsName(n) { EntryPathsAreListed(Prompt(n)); } }
    forall n ensures SkillAt(a, n) == SkillAt(b, n) {
      SameFilesSameSkill(a, b, n);
      if IsName(n) { EntryPathsAreListed(SkillFile(n, SKILL_ENTRY_FILE)); }
    }
    SameServed(a, b);
  }

  lemma {:induction false} SameFilesSameSkill(a: Tree, b: Tree, name: Text)
    requires b.files == a.files
    ensures SkillFilesAt(a, name) == SkillFilesAt(b, name)
  {
  }

  lemma {:induction false} SameServed(a: Tree, b: Tree)
    requires b.files == a.files && NothingIgnored(a)
    requires forall s :: s in SCOPES ==> InstructionAt(a, s) == InstructionAt(b, s)
    requires forall n :: PromptAt(a, n) == PromptAt(b, n)
    requires forall n :: SkillAt(a, n) == SkillAt(b, n)
    ensures Parse(b) == Parse(a)
  {
    hide InstructionAt, PromptAt, SkillAt, Parse;
    assert NothingIgnored(b) by {
      forall p | p in b.files ensures Explained(b, p) { assert Explained(a, p); }
    }
    ParseServes(a);
    ServedIsParsed(b, Parse(a));
  }

  // ----- The refinement, in either store ------------------------------------------------------------

  /**
   Every accepted edit, in either store: what is served after it is stored and read
   back is exactly its stored form applied to what was served before, and nothing
   becomes ignored.
   */
  lemma {:induction false} StoredEditRefines(store: Store, held: Tree, edit: Edit, author: Author, listing: seq<Text>)
    requires Parse(View(store, held)).ignored == {} && KnownScope(edit)
    requires ListsRemoved(Parse(View(store, held)), edit, listing)
    requires PlanEdit(Parse(View(store, held)), edit, listing).Ok?
    ensures var c := Parse(View(store, held));
            var after := ApplyAll(held, AllKept(store, PlanEdit(c, edit, listing).value), author);
            Parse(View(store, after)) == StoredUpdate(store, c, edit, author)
    ensures StoredUpdate(store, Parse(View(store, held)), edit, author).ignored == {}
  {
    hide Parse, View, PlanEdit, Update, ListsRemoved, StoredEdit, AllKept, ApplyAll;
    var c := Parse(View(store, held));
    if Vanishes(store, edit) {
      VanishingEdit(held, edit, author, listing);
    } else {
      PlanStored(store, c, edit, listing);
      var kept := StoredEdit(store, edit);
      StoredListing(store, c, edit, listing);
      WritesAreListed(store, c, kept, listing);
      ViewKept(store, held, PlanEdit(c, kept, listing).value, author);
      EditRefinesUpdate(View(store, held), kept, author, listing);
    }
  }

  lemma {:induction false} StoredListing(store: Store, c: Customizations, edit: Edit, listing: seq<Text>)
    requires ListsRemoved(c, edit, listing)
    ensures ListsRemoved(c, StoredEdit(store, edit), listing)
    ensures Vanishes(store, StoredEdit(store, edit)) <==> Vanishes(store, edit)
  {
  }

  lemma {:induction false} ViewKept(store: Store, held: Tree, changes: seq<FileChange>, author: Author)
    requires store.Files? ==> forall i :: 0 <= i < |changes| && changes[i].content.Some? ==> !Hidden(changes[i].path)
    ensures View(store, ApplyAll(held, changes, author)) == ApplyAll(View(store, held), changes, author)
  {
    if store.Files? { ViewChanges(store, held, changes, author); }
  }

  lemma {:induction false} VanishingEdit(held: Tree, edit: Edit, author: Author, listing: seq<Text>)
    requires Parse(View(Files, held)).ignored == {} && Vanishes(Files, edit)
    requires PlanEdit(Parse(View(Files, held)), edit, listing).Ok?
    ensures var c := Parse(View(Files, held));
            Parse(View(Files, ApplyAll(held, AllKept(Files, PlanEdit(c, edit, listing).value), author))) == c
  {
    hide Parse, View, TempLike, Stored, IsName, CheckSkillEntry, CheckedPath, TotalLength, ApplyChange, NothingIgnored;
    ParseServes(View(Files, held));
    var change := FileChange(PathOf(SkillFile(edit.name, FileOf(edit.path))), edit.text);
    KeptOne(Files, change);
    ApplyOne(held, Kept(Files, change), author);
    HiddenChangesNothing(held, edit.name, FileOf(edit.path), Stored(edit.text.value), author);
  }

  /** The limits hold for what is stored, whatever its texts and paths. */
  lemma {:induction false} StoredEditKeepsLimits(store: Store, c: Customizations, edit: Edit, listing: seq<Text>, author: Author)
    requires WithinLimits(c) && KnownScope(edit) && PlanEdit(c, edit, listing).Ok?
    ensures WithinLimits(StoredUpdate(store, c, edit, author))
  {
    hide PlanEdit, Update, WithinLimits, StoredEdit, AllKept;
    PlanStored(store, c, edit, listing);
    if !Vanishes(store, edit) { EditKeepsLimits(c, StoredEdit(store, edit), listing, author); }
  }

  // ----- Which edits are stored as they were made -----------------------------------------------------

  /** Nothing served comes from a file the store hides. */
  lemma {:induction false} ServedFilesAreListed(held: Tree, name: Text, file: Text)
    requires var c := Parse(View(Files, held)); name in c.skills && file in c.skills[name].files
    ensures !TempLike(file)
  {
    hide Parse, TempLike;
    var seen := View(Files, held);
    SkillParsed(seen, name);
    SkillFileIn(seen, name, file);
    HiddenByName(name, file);
  }

  lemma {:induction false} TextMatters(c: Customizations, edit: Edit, author: Author)
    requires !Removes(edit) && !Vanishes(Files, edit)
    requires edit.EditSkill? && FileOf(edit.path) != SKILL_ENTRY_FILE ==> edit.name in c.skills
    ensures Update(c, StoredEdit(Files, edit), author) == Update(c, edit, author) <==> Survives(Files, edit)
  {
    hide Stored, WellFormed, Trimmed, TempLike, DescriptionIn;
    match edit
    case EditInstructions(scope, Some(text)) =>
      SurvivesExactly(Trim(text));
      TrimTrims(text);
      StoredKeepsTrimmed(Trim(text));
      var a, b := Update(c, StoredEdit(Files, edit), author), Update(c, edit, author);
      assert a.instructions[scope].text == Stored(Trim(text)) && b.instructions[scope].text == Trim(text);
    case EditPrompt(name, Some(p)) =>
      SurvivesExactly(Trim(p.text));
      TrimTrims(p.text);
      StoredKeepsTrimmed(Trim(p.text));
      var a, b := Update(c, StoredEdit(Files, edit), author), Update(c, edit, author);
      assert a.prompts[name].text == Stored(Trim(p.text)) && b.prompts[name].text == Trim(p.text);
    case EditSkill(name, path, Some(text)) =>
      SurvivesExactly(text);
      var a, b := Update(c, StoredEdit(Files, edit), author), Update(c, edit, author);
      assert a.skills[name].files[FileOf(path)] == Stored(text) && b.skills[name].files[FileOf(path)] == text;
  }

  /**
   Exactly which accepted edits are in force as they were made: in the memory store all
   of them; in the file store those whose texts are well-formed and, for a skill file,
   whose name does not end like a temporary one.
   */
  lemma {:induction false} EditSurvivesExactly(store: Store, held: Tree, edit: Edit, author: Author, listing: seq<Text>)
    requires KnownScope(edit) && PlanEdit(Parse(View(store, held)), edit, listing).Ok?
    ensures var c := Parse(View(store, held));
            StoredUpdate(store, c, edit, author) == Update(c, edit, author) <==> Survives(store, edit)
  {
    hide Parse, View, Stored, WellFormed, TempLike, IsName, CheckSkillEntry, CheckedPath, TotalLength, Trim, DescriptionIn;
    var c := Parse(View(store, held));
    if store.Files? && !Removes(edit) {
      if Vanishes(store, edit) {
        TempIsNoEntry();
        var file := FileOf(edit.path);
        if file in c.skills[edit.name].files { ServedFilesAreListed(held, edit.name, file); }
        assert file in Update(c, edit, author).skills[edit.name].files;
      } else {
        TextMatters(c, edit, author);
      }
    }
  }

  lemma {:induction false} TempIsNoEntry()
    ensures !TempLike(SKILL_ENTRY_FILE)
  {
  }
}
