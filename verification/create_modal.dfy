/** The "create prompt" modal: a form holding a new prompt and the tags as
    typed, and the submit action that adds the prompt to the catalog. */
module CreateForm {
  import opened Strings
  import opened Models
  import opened Catalog
  import opened CommaList

  /** The form's state: the prompt being written and the raw tags text. */
  datatype Form = Form(draft: Prompt, tagsInput: string)

  /** `ResetForm`: a new prompt authored by "You", public, for beginners, and
      no tags typed. `new Prompt()` draws a GUID and reads the clock; both are
      the parameters. */
  function ResetForm(freshId: string, now: Instant): (f: Form)
    ensures f.draft.author == "You" && f.draft.isPublic && f.draft.difficulty == "beginner"
    ensures f.tagsInput == ""
    ensures f.draft.title == "" && f.draft.content == "" && f.draft.category == "" && f.draft.tags == []
    ensures f.draft.description == "" && f.draft.usageNotes == "" && f.draft.estimatedTime == "" && f.draft.placeholders == []
    ensures f.draft.usageCount == 0 && f.draft.averageRating == 0.0
    ensures f.draft.id == freshId && f.draft.createdAt == now && f.draft.updatedAt == now
  {
    Form(NewPrompt(freshId, now).(author := "You", isPublic := true, difficulty := "beginner"), "")
  }

  /** The submit guard: title, content and category must not be blank. */
  predicate Complete(p: Prompt)
  {
    !IsBlank(p.title) && !IsBlank(p.content) && !IsBlank(p.category)
  }

  /** The tags a submit stores: the comma list when the text is not blank,
      otherwise none. */
  function SubmittedTags(tagsInput: string): (tags: seq<string>)
    ensures IsBlank(tagsInput) ==> tags == []
    ensures !IsBlank(tagsInput) ==> tags == ParseCommaList(tagsInput)
  {
    if IsBlank(tagsInput) then [] else ParseCommaList(tagsInput)
  }

  /** A blank tags text gives no tags, though the comma list of it would hold
      one empty entry. */
  lemma {:induction false} BlankTagsGiveNone(text: string)
    requires |text| > 0 && IsBlank(text) && ',' !in text
    ensures SubmittedTags(text) == [] && ParseCommaList(text) == [""]
  {
    BlankPieceKept([text], 0);
    assert Join(",", [text]) == text;
  }

  /** Typeable tags typed with commas between them are stored as typed. */
  lemma {:induction false} SubmittedTagsRoundTrip(tags: seq<string>)
    requires |tags| > 0
    requires forall i | 0 <= i < |tags| :: Typeable(tags[i])
    ensures SubmittedTags(Join(",", tags)) == tags
  {
    ParseJoined(tags);
    var text := Join(",", tags);
    assert !IsBlank(text) by {
      JoinFirst(",", tags);
      assert |tags[0]| > 0 && !IsWhiteSpace(tags[0][0]);
      assert text[0] == tags[0][0];
    }
  }

  /** `CreatePrompt`: an incomplete draft changes nothing and keeps the modal
      open; a complete one gets its tags and is added through
      `AddPromptAsync`, which draws a fresh id and reads the clock, after
      which the modal asks to close. */
  function CreatePrompt(f: Form, s: AppState, freshId: string, now: Instant): (r: (AppState, bool))
    ensures !Complete(f.draft) ==> r == (s, false)
    ensures Complete(f.draft) ==>
      r.1 && r.0 == AddPrompt(s, f.draft.(tags := SubmittedTags(f.tagsInput)), freshId, now)
  {
    if !Complete(f.draft) then (s, false)
    else (AddPrompt(s, f.draft.(tags := SubmittedTags(f.tagsInput)), freshId, now), true)
  }

  /** A successful create adds exactly one prompt, at the end: the draft with
      its parsed tags, the fresh id and the clock reading. The rest of the
      catalog is untouched and the counts stay consistent. */
  lemma {:induction false} CreateAddsOne(f: Form, s: AppState, freshId: string, now: Instant)
    requires Complete(f.draft)
    ensures var s' := CreatePrompt(f, s, freshId, now).0;
      && |s'.prompts| == |s.prompts| + 1
      && s'.prompts[..|s.prompts|] == s.prompts
      && s'.prompts[|s.prompts|] == f.draft.(tags := SubmittedTags(f.tagsInput), id := freshId,
                                             createdAt := now, updatedAt := now)
      && s'.favorites == s.favorites && s'.userRatings == s.userRatings && s'.history == s.history
      && CountsConsistent(s')
  {
    var s' := CreatePrompt(f, s, freshId, now).0;
    assert s'.prompts[..|s.prompts|] == s.prompts;
  }

  /** A freshly reset form cannot be submitted: its title is empty. */
  lemma {:induction false} ResetFormIncomplete(freshId: string, now: Instant)
    ensures !Complete(ResetForm(freshId, now).draft)
    ensures CreatePrompt(ResetForm(freshId, now), NewAppState(now), freshId, now).0 == NewAppState(now)
  {
  }
}
