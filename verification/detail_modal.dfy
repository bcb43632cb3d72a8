/** The prompt detail modal: its customise form, built from the fields a
    placeholder parser finds in the prompt, and its in-place content editor.
    The parser is not part of this model; it is the parameter `parser`. */
module DetailModal {
  import opened Optional
  import opened Seqs
  import opened Strings
  import opened Models
  import opened CatalogView
  import opened Catalog

  /** One input of the customise form. */
  datatype Field = Field(
    id: string,
    name: string,
    fieldType: string,
    required: bool,
    placeholder: Option<string>,
    options: Option<seq<string>>,
    description: Option<string>)

  /** What the parser finds in a prompt: the form fields and the content in
      which their values are substituted. */
  datatype Parsed = Parsed(fields: seq<Field>, processedContent: string)

  /** The placeholder parser: parsing content and substituting values. */
  datatype Parser = Parser(parse: string -> Parsed, replace: (string, map<string, string>) -> string)

  /** The modal's state. `parsed` is `None` until a prompt is parsed. */
  datatype Modal = Modal(
    selected: Option<Prompt>,
    visible: bool,
    activeTab: int,
    values: map<string, string>,
    parsed: Option<Parsed>,
    generated: Option<string>,
    showGenerated: bool,
    errors: map<string, string>,
    editing: bool,
    editBuffer: string)

  // ---------------------------------------------------------------------------
  // The customise form

  /** `GetValueOrDefault(id, "")`. */
  function ValueOf(values: map<string, string>, id: string): string
  {
    if id in values then values[id] else ""
  }

  /** A required field whose value is missing or white space. */
  predicate Failing(f: Field, values: map<string, string>)
  {
    f.required && IsBlank(ValueOf(values, f.id))
  }

  /** The message shown for a failing field. */
  function RequiredMessage(f: Field): string
  {
    f.name + " is required"
  }

  /** `InitializeCustomizeValues`: one empty value per field id. */
  function EmptyValues(fields: seq<Field>): (values: map<string, string>)
    ensures forall k :: k in values <==> exists i | 0 <= i < |fields| :: fields[i].id == k
    ensures forall k | k in values :: values[k] == ""
    decreases |fields|
  {
    if |fields| == 0 then map[]
    else
      var init := fields[..|fields| - 1];
      var last := fields[|fields| - 1];
      var before := EmptyValues(init);
      assert forall i | 0 <= i < |init| :: fields[i] == init[i];
      before[last.id := ""]
  }

  /** The errors `ValidateForm` records: one per failing field id, with the
      message of a failing field carrying that id (the last one, by
      `ErrorsKeepLast`). */
  function Errors(fields: seq<Field>, values: map<string, string>): (errors: map<string, string>)
    ensures forall k :: k in errors <==> exists i | 0 <= i < |fields| :: fields[i].id == k && Failing(fields[i], values)
    ensures forall k | k in errors :: exists i | 0 <= i < |fields| ::
              fields[i].id == k && Failing(fields[i], values) && errors[k] == RequiredMessage(fields[i])
    decreases |fields|
  {
    if |fields| == 0 then map[]
    else
      var init := fields[..|fields| - 1];
      var last := fields[|fields| - 1];
      var before := Errors(init, values);
      assert forall i | 0 <= i < |init| :: fields[i] == init[i];
      if Failing(last, values) then before[last.id := RequiredMessage(last)] else before
  }

  /** Field `i` is the last failing field carrying id `k`. */
  predicate LastFailing(fields: seq<Field>, values: map<string, string>, k: string, i: int)
  {
    && 0 <= i < |fields| && fields[i].id == k && Failing(fields[i], values)
    && forall j | i < j < |fields| :: !(fields[j].id == k && Failing(fields[j], values))
  }

  /** The last failing field of a prefix stays the last one when the next
      field does not fail with the same id. */
  lemma {:induction false} LastFailingSnoc(fields: seq<Field>, values: map<string, string>, k: string, i: int)
    requires |fields| > 0 && LastFailing(fields[..|fields| - 1], values, k, i)
    requires !(fields[|fields| - 1].id == k && Failing(fields[|fields| - 1], values))
    ensures LastFailing(fields, values, k, i)
  {
    var init := fields[..|fields| - 1];
    assert fields[i] == init[i];
    forall j | i < j < |fields|
      ensures !(fields[j].id == k && Failing(fields[j], values))
    {
      if j < |init| {
        assert fields[j] == init[j];
      }
    }
  }

  /** When several failing fields share an id, the message recorded is the
      one of the last of them: later fields overwrite earlier ones. */
  lemma {:induction false} ErrorsKeepLast(fields: seq<Field>, values: map<string, string>, k: string)
    requires exists i | 0 <= i < |fields| :: fields[i].id == k && Failing(fields[i], values)
    ensures k in Errors(fields, values)
    ensures exists i :: LastFailing(fields, values, k, i) && Errors(fields, values)[k] == RequiredMessage(fields[i])
    decreases |fields|
  {
    var init := fields[..|fields| - 1];
    var last := fields[|fields| - 1];
    if Failing(last, values) && k == last.id {
      var e := Errors(fields, values);
      assert e == Errors(init, values)[last.id := RequiredMessage(last)];
      assert LastFailing(fields, values, k, |fields| - 1);
    } else {
      var i0 :| 0 <= i0 < |fields| && fields[i0].id == k && Failing(fields[i0], values);
      assert init[i0] == fields[i0];
      ErrorsKeepLast(init, values, k);
      ErrorsKeepLastStep(fields, init, values, k);
    }
  }

  /** The step of `ErrorsKeepLast` when the last field does not fail with id `k`:
      the entry for `k` and its last failing field come from the prefix. */
  lemma {:induction false} ErrorsKeepLastStep(fields: seq<Field>, init: seq<Field>, values: map<string, string>, k: string)
    requires |fields| > 0 && init == fields[..|fields| - 1]
    requires !(fields[|fields| - 1].id == k && Failing(fields[|fields| - 1], values))
    requires k in Errors(init, values)
    requires exists i :: LastFailing(init, values, k, i) && Errors(init, values)[k] == RequiredMessage(init[i])
    ensures k in Errors(fields, values)
    ensures exists i :: LastFailing(fields, values, k, i) && Errors(fields, values)[k] == RequiredMessage(fields[i])
  {
    var last := fields[|fields| - 1];
    var e, b := Errors(fields, values), Errors(init, values);
    assert e == if Failing(last, values) then b[last.id := RequiredMessage(last)] else b;
    assert e[k] == b[k];
    var i :| LastFailing(init, values, k, i) && b[k] == RequiredMessage(init[i]);
    LastFailingSnoc(fields, values, k, i);
    assert fields[i] == init[i];
  }

  /** Every field passes. */
  predicate AllPass(fields: seq<Field>, values: map<string, string>)
  {
    forall i | 0 <= i < |fields| :: !Failing(fields[i], values)
  }

  /** `ValidateForm`: records the errors and reports whether there are none;
      without parsed fields there is nothing to check and the form is valid. */
  function ValidateForm(m: Modal): (r: (bool, Modal))
    ensures m.parsed.None? ==> r.0 && r.1 == m.(errors := map[])
    ensures m.parsed.Some? ==> r.1 == m.(errors := Errors(m.parsed.value.fields, m.values))
    ensures r.0 <==> |r.1.errors| == 0
    ensures m.parsed.Some? ==> (r.0 <==> AllPass(m.parsed.value.fields, m.values))
  {
    match m.parsed
    case None => (true, m.(errors := map[]))
    case Some(p) =>
      var errors := Errors(p.fields, m.values);
      assert |errors| == 0 <==> AllPass(p.fields, m.values) by {
        if !AllPass(p.fields, m.values) {
          var i :| 0 <= i < |p.fields| && Failing(p.fields[i], m.values);
          assert p.fields[i].id in errors;
        }
        if |errors| > 0 {
          var k :| k in errors;
        }
      }
      (|errors| == 0, m.(errors := errors))
  }

  /** `IsFormValid`: false without parsed fields, otherwise whether every
      required field has a value; it stops at the first failing field. */
  method IsFormValid(m: Modal) returns (ok: bool)
    ensures ok <==> m.parsed.Some? && AllPass(m.parsed.value.fields, m.values)
  {
    if m.parsed.None? {
      return false;
    }
    var fields := m.parsed.value.fields;
    var i := 0;
    while i < |fields|
      invariant 0 <= i <= |fields|
      invariant forall j | 0 <= j < i :: !Failing(fields[j], m.values)
    {
      if fields[i].required && IsBlank(ValueOf(m.values, fields[i].id)) {
        return false;
      }
      i := i + 1;
    }
    return true;
  }

  /** The two validity tests agree once fields are parsed and differ without
      them: then `ValidateForm` passes and `IsFormValid` fails. */
  lemma {:induction false} ValidityTestsAgree(m: Modal, ok: bool)
    requires ok <==> m.parsed.Some? && AllPass(m.parsed.value.fields, m.values)
    ensures m.parsed.Some? ==> (ok <==> ValidateForm(m).0)
    ensures m.parsed.None? ==> !ok && ValidateForm(m).0
  {
  }

  /** A freshly initialised form passes exactly when no field is required. */
  lemma {:induction false} FreshFormValidity(fields: seq<Field>)
    ensures AllPass(fields, EmptyValues(fields)) <==> forall i | 0 <= i < |fields| :: !fields[i].required
  {
    var values := EmptyValues(fields);
    forall i | 0 <= i < |fields|
      ensures Failing(fields[i], values) <==> fields[i].required
    {
      assert fields[i].id in values;
      assert ValueOf(values, fields[i].id) == "";
    }
  }

  /** `ParsePromptPlaceholders`: parses the selected prompt, if any. */
  function ParseSelected(m: Modal, parser: Parser): (r: Modal)
    ensures m.selected.None? ==> r == m
    ensures m.selected.Some? ==> r == m.(parsed := Some(parser.parse(m.selected.value.content)))
  {
    match m.selected
    case None => m
    case Some(p) => m.(parsed := Some(parser.parse(p.content)))
  }

  /** `InitializeCustomizeValues`: empty values for the parsed fields, none
      without them. */
  function InitializeValues(m: Modal): (r: Modal)
    ensures m.parsed.None? ==> r == m.(values := map[])
    ensures m.parsed.Some? ==> r == m.(values := EmptyValues(m.parsed.value.fields))
    ensures m.parsed.Some? ==>
      forall k :: k in r.values <==> exists i | 0 <= i < |m.parsed.value.fields| :: m.parsed.value.fields[i].id == k
    ensures forall k | k in r.values :: r.values[k] == ""
  {
    m.(values := if m.parsed.Some? then EmptyValues(m.parsed.value.fields) else map[])
  }

  /** `ShowPrompt`: selects and parses the prompt and resets every part of the
      modal to its initial view. */
  function ShowPrompt(m: Modal, p: Prompt, parser: Parser): (r: Modal)
    ensures r.selected == Some(p) && r.visible && r.activeTab == 0
    ensures r.parsed == Some(parser.parse(p.content))
    ensures r.values == EmptyValues(parser.parse(p.content).fields)
    ensures r.generated.None? && !r.showGenerated && r.errors == map[]
    ensures !r.editing && r.editBuffer == ""
  {
    var shown := m.(selected := Some(p), visible := true, activeTab := 0);
    InitializeValues(ParseSelected(shown, parser)).(
      showGenerated := false, generated := None, errors := map[], editing := false, editBuffer := "")
  }

  /** Showing a prompt forgets everything about the previous one. */
  lemma {:induction false} ShowPromptForgets(m1: Modal, m2: Modal, p: Prompt, parser: Parser)
    ensures ShowPrompt(m1, p, parser) == ShowPrompt(m2, p, parser)
  {
  }

  /** `SetActiveTab`: switching to the customise tab (1) re-parses and resets
      the values. */
  function SetActiveTab(m: Modal, tab: int, parser: Parser): (r: Modal)
    ensures r.activeTab == tab
    ensures tab != 1 ==> r == m.(activeTab := tab)
    ensures tab == 1 ==> r == InitializeValues(ParseSelected(m.(activeTab := tab), parser))
    ensures tab == 1 && m.selected.Some? ==>
      r.parsed == Some(parser.parse(m.selected.value.content)) && r.values == EmptyValues(parser.parse(m.selected.value.content).fields)
    ensures tab == 1 ==> forall k | k in r.values :: r.values[k] == ""
    ensures r.selected == m.selected && r.visible == m.visible && r.generated == m.generated
    ensures r.errors == m.errors && r.editing == m.editing && r.editBuffer == m.editBuffer
  {
    var switched := m.(activeTab := tab);
    if tab == 1 then InitializeValues(ParseSelected(switched, parser)) else switched
  }

  /** `ResetCustomizeForm`: empty values, no generated prompt, no errors. */
  function ResetCustomizeForm(m: Modal): (r: Modal)
    ensures r.generated.None? && !r.showGenerated && r.errors == map[]
    ensures r == InitializeValues(m).(generated := None, showGenerated := false, errors := map[])
    ensures r == m.(values := r.values, generated := None, showGenerated := false, errors := map[])
    ensures forall k | k in r.values :: r.values[k] == ""
  {
    InitializeValues(m).(generated := None, showGenerated := false, errors := map[])
  }

  /** `CloseModal`: hides the modal and forgets the prompt. */
  function CloseModal(m: Modal): (r: Modal)
    ensures !r.visible && r.selected.None?
    ensures r == m.(visible := false, selected := None)
  {
    m.(visible := false, selected := None)
  }

  /** Once closed, the modal has no prompt to act on: it shows no favourite,
      and the favourite toggle, the editor, the generator and the save all
      leave modal and catalog as they are. */
  lemma {:induction false} ClosedModalIsInert(m: Modal, s: AppState, parser: Parser, now: Instant)
    ensures var c := CloseModal(m);
      && !IsFavorite(c, s) && ToggleSelectedFavorite(c, s) == s
      && StartEdit(c) == c && GenerateCustomPrompt(c, parser) == c
      && SavePrompt(c, s, parser, now) == (c, s)
  {
  }

  /** Opening the customise tab of a shown prompt parses its current content
      and discards the values typed so far; opening it again changes nothing. */
  lemma {:induction false} CustomizeTabResets(m: Modal, parser: Parser)
    requires m.selected.Some?
    ensures var r := SetActiveTab(m, 1, parser);
      && r.parsed == Some(parser.parse(m.selected.value.content))
      && r.values == EmptyValues(parser.parse(m.selected.value.content).fields)
      && r.generated == m.generated && r.errors == m.errors
    ensures SetActiveTab(SetActiveTab(m, 1, parser), 1, parser) == SetActiveTab(m, 1, parser)
  {
  }

  /** Right after a reset, generating succeeds exactly when the form has no
      required field. */
  lemma {:induction false} GenerateAfterReset(m: Modal, parser: Parser)
    requires m.selected.Some? && m.parsed.Some?
    ensures GenerateCustomPrompt(ResetCustomizeForm(m), parser).generated.Some? <==>
            forall i | 0 <= i < |m.parsed.value.fields| :: !m.parsed.value.fields[i].required
  {
    FreshFormValidity(m.parsed.value.fields);
  }

  /** `GenerateCustomPrompt`: without a prompt or parsed fields nothing happens;
      a failing validation records its errors and keeps the previous result;
      otherwise the values are substituted into the processed content. */
  function GenerateCustomPrompt(m: Modal, parser: Parser): (r: Modal)
    ensures m.selected.None? || m.parsed.None? ==> r == m
    ensures r.generated != m.generated ==>
      m.selected.Some? && m.parsed.Some? && AllPass(m.parsed.value.fields, m.values)
    ensures m.selected.Some? && m.parsed.Some? && !AllPass(m.parsed.value.fields, m.values) ==>
      r == m.(errors := Errors(m.parsed.value.fields, m.values)) && |r.errors| > 0
    ensures m.selected.Some? && m.parsed.Some? && AllPass(m.parsed.value.fields, m.values) ==>
      r.generated == Some(parser.replace(m.parsed.value.processedContent, m.values)) && r.showGenerated
      && r.errors == map[]
  {
    if m.selected.None? || m.parsed.None? then m
    else
      var (valid, checked) := ValidateForm(m);
      if !valid then checked
      else checked.(generated := Some(parser.replace(m.parsed.value.processedContent, m.values)), showGenerated := true)
  }

  /** `GetInputType`: the HTML input type of a field type. */
  function InputType(fieldType: string): (t: string)
    ensures t == "email" || t == "url" || t == "number" || t == "text"
    ensures fieldType == "email" || fieldType == "url" || fieldType == "number" ==> t == fieldType
    ensures t != "text" ==> t == fieldType
  {
    if fieldType == "email" || fieldType == "url" || fieldType == "number" then fieldType else "text"
  }

  // ---------------------------------------------------------------------------
  // Favourite

  /** `IsFavorite`: a prompt is selected and its id is a favourite. */
  predicate IsFavorite(m: Modal, s: AppState)
  {
    m.selected.Some? && m.selected.value.id in s.favorites
  }

  /** `ToggleFavorite`: toggles the selected prompt's favourite flag in the
      catalog; without a selection nothing changes. */
  function ToggleSelectedFavorite(m: Modal, s: AppState): (r: AppState)
    ensures m.selected.None? ==> r == s
    ensures m.selected.Some? && NoDup(s.favorites) ==> IsFavorite(m, r) == !IsFavorite(m, s)
    ensures m.selected.Some? ==> r == ToggleFavorite(s, m.selected.value.id)
  {
    if m.selected.None? then s else ToggleFavorite(s, m.selected.value.id)
  }

  // ---------------------------------------------------------------------------
  // The content editor

  /** `StartEdit`: with a prompt selected, enters edit mode on its content. */
  function StartEdit(m: Modal): (r: Modal)
    ensures m.selected.None? ==> r == m
    ensures m.selected.Some? ==> r == m.(editing := true, editBuffer := m.selected.value.content)
  {
    match m.selected
    case None => m
    case Some(p) => m.(editing := true, editBuffer := p.content)
  }

  /** `CancelEdit`: leaves edit mode with an empty buffer. */
  function CancelEdit(m: Modal): (r: Modal)
    ensures !r.editing && r.editBuffer == ""
    ensures r == m.(editing := false, editBuffer := "")
  {
    m.(editing := false, editBuffer := "")
  }

  /** `ToggleEditMode`: cancels while editing, starts otherwise. */
  function ToggleEditMode(m: Modal): (r: Modal)
    ensures m.editing ==> r == CancelEdit(m)
    ensures !m.editing ==> r == StartEdit(m)
    ensures r == m.(editing := r.editing, editBuffer := r.editBuffer)
    ensures m.selected.Some? ==> r.editing == !m.editing
    ensures r.editing ==> m.selected.Some? && r.editBuffer == m.selected.value.content
    ensures m.editing ==> !r.editing && r.editBuffer == ""
    ensures !m.editing && m.selected.None? ==> r == m
  {
    if m.editing then CancelEdit(m) else StartEdit(m)
  }

  /** Starting an edit and cancelling it returns a modal in view mode with an
      empty buffer to exactly where it was. */
  lemma {:induction false} CancelUndoesStart(m: Modal)
    requires !m.editing && m.editBuffer == ""
    ensures CancelEdit(StartEdit(m)) == m
  {
  }

  /** With a prompt selected, toggling alternates between editing a copy of
      its content and not editing with an empty buffer. */
  lemma {:induction false} ToggleEditModeAlternates(m: Modal)
    requires m.selected.Some?
    ensures var once := ToggleEditMode(m);
      once.editing == !m.editing
      && (once.editing ==> once.editBuffer == m.selected.value.content)
      && (!once.editing ==> once.editBuffer == "")
    ensures !m.editing ==> ToggleEditMode(ToggleEditMode(m)) == m.(editBuffer := "")
  {
  }

  /** `SavePrompt`: with a prompt selected and a buffer that is not blank,
      stores the trimmed buffer as the prompt's content through
      `UpdatePromptAsync`, re-parses, resets the values and leaves edit mode.
      Otherwise nothing changes. */
  function SavePrompt(m: Modal, s: AppState, parser: Parser, now: Instant): (r: (Modal, AppState))
    ensures m.selected.None? || IsBlank(m.editBuffer) ==> r == (m, s)
    ensures m.selected.Some? && !IsBlank(m.editBuffer) ==>
      var saved := m.selected.value.(content := Trim(m.editBuffer));
      && r.1 == UpdatePrompt(s, saved, now)
      && r.0.selected == Some(if Known(s.prompts, saved.id) then saved.(updatedAt := now) else saved)
      && r.0.parsed == Some(parser.parse(saved.content))
      && r.0.values == EmptyValues(parser.parse(saved.content).fields)
      && !r.0.editing && r.0.editBuffer == ""
  {
    if m.selected.None? || IsBlank(m.editBuffer) then (m, s)
    else
      var saved := m.selected.value.(content := Trim(m.editBuffer));
      var s' := UpdatePrompt(s, saved, now);
      // The service stamps the object it is given, so the modal sees the stamp.
      var stamped := if Known(s.prompts, saved.id) then saved.(updatedAt := now) else saved;
      var m' := InitializeValues(ParseSelected(m.(selected := Some(stamped)), parser));
      (m'.(editing := false, editBuffer := ""), s')
  }

  /** After a save, the catalog holds the trimmed buffer as the content of the
      prompt with that id, which is not blank. */
  lemma {:induction false} SavedContentStored(m: Modal, s: AppState, parser: Parser, now: Instant)
    requires m.selected.Some? && !IsBlank(m.editBuffer)
    requires Known(s.prompts, m.selected.value.id)
    ensures var s' := SavePrompt(m, s, parser, now).1;
      var i := FindIndex(s.prompts, m.selected.value.id);
      i < |s'.prompts| && s'.prompts[i].content == Trim(m.editBuffer)
      && s'.prompts[i].id == m.selected.value.id && |s'.prompts[i].content| > 0
  {
  }
}
