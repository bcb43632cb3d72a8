/** The prompt generator page: a prompt template edited through content
    helpers, whose bracketed placeholders and comma-separated tags are
    collected when the template is generated. JSON serialisation is the
    parameter `serialize`. */
module Generator {
  import opened Optional
  import opened Seqs
  import opened Strings
  import opened Models
  import opened CommaList

  // ---------------------------------------------------------------------------
  // Placeholder extraction

  /** The captures of the pattern `\[([^\]]+)\]`, scanned left to right
      without overlap: an opening bracket, at least one character that is not
      a closing bracket, and the first closing bracket after them. An opening
      bracket that does not start a match is passed over like any character. */
  function Matches(s: string): seq<string>
    decreases |s|
  {
    if |s| == 0 then []
    else if s[0] == '[' && ']' in s[1..] && IndexOf(s[1..], ']') > 0 then
      var k := IndexOf(s[1..], ']');
      assert s[1..k + 1] == s[1..][..k];
      [s[1..k + 1]] + Matches(s[k + 2..])
    else Matches(s[1..])
  }

  /** Every match is a non-empty name without a closing bracket, found in
      brackets in the text. */
  lemma {:induction false} MatchesWellFormed(s: string)
    ensures forall m | m in Matches(s) :: |m| > 0 && ']' !in m && Contains(s, "[" + m + "]")
    decreases |s|
  {
    if |s| > 0 {
      if s[0] == '[' && ']' in s[1..] && IndexOf(s[1..], ']') > 0 {
        var k := IndexOf(s[1..], ']');
        assert s[1..k + 1] == s[1..][..k];
        MatchesTake(s);
        MatchesWellFormed(s[k + 2..]);
        forall m | m in Matches(s)
          ensures |m| > 0 && ']' !in m && Contains(s, "[" + m + "]")
        {
          if m in Matches(s[k + 2..]) {
            ContainsSuffix(s, k + 2, "[" + m + "]");
          } else {
            assert m == s[1..k + 1];
            assert s[0..k + 2] == "[" + m + "]";
            assert OccursAt(s, "[" + m + "]", 0);
          }
        }
      } else {
        MatchesSkip(s);
        MatchesWellFormed(s[1..]);
        forall m | m in Matches(s)
          ensures Contains(s, "[" + m + "]")
        {
          ContainsSuffix(s, 1, "[" + m + "]");
        }
      }
    }
  }

  /** Every opening bracket of `s` is followed, somewhere later, by a closing
      one, so no match can run past the end of `s`. */
  predicate Closed(s: string)
  {
    forall i | 0 <= i < |s| && s[i] == '[' :: ']' in s[i + 1..]
  }

  /** The names written as consecutive bracketed placeholders. */
  function Bracketed(names: seq<string>): string
  {
    if |names| == 0 then "" else "[" + names[0] + "]" + Bracketed(names[1..])
  }

  /** The first closing bracket after an opening one ends the name before it. */
  lemma {:induction false} CloseAfterName(name: string, rest: string)
    requires ']' !in name
    ensures ']' in name + "]" + rest && IndexOf(name + "]" + rest, ']') == |name|
  {
    var t := name + "]" + rest;
    assert t[|name|] == ']';
  }

  /** One step of the scan when a match starts at the front. */
  lemma {:induction false} MatchesTake(s: string)
    requires |s| > 0 && s[0] == '[' && ']' in s[1..] && IndexOf(s[1..], ']') > 0
    ensures Matches(s) == [s[1..IndexOf(s[1..], ']') + 1]] + Matches(s[IndexOf(s[1..], ']') + 2..])
  {
  }

  /** One step of the scan when no match starts at the front. */
  lemma {:induction false} MatchesSkip(s: string)
    requires |s| > 0 && !(s[0] == '[' && ']' in s[1..] && IndexOf(s[1..], ']') > 0)
    ensures Matches(s) == Matches(s[1..])
  {
  }

  /** A bracketed name at the front is matched and the scan resumes after it. */
  lemma {:induction false} MatchesBracketFront(name: string, rest: string)
    requires |name| > 0 && ']' !in name
    ensures Matches("[" + name + "]" + rest) == [name] + Matches(rest)
  {
    var s := "[" + name + "]" + rest;
    assert s[1..] == name + "]" + rest;
    CloseAfterName(name, rest);
    assert s[1..|name| + 1] == name;
    assert s[|name| + 2..] == rest;
  }

  /** Text without an opening bracket contributes no match. */
  lemma {:induction false} MatchesPlainFront(plain: string, rest: string)
    requires '[' !in plain
    ensures Matches(plain + rest) == Matches(rest)
    decreases |plain|
  {
    if |plain| > 0 {
      assert (plain + rest)[1..] == plain[1..] + rest;
      MatchesPlainFront(plain[1..], rest);
    } else {
      assert plain + rest == rest;
    }
  }

  /** Placeholders written in brackets are read back in order. */
  lemma {:induction false} MatchesBracketed(names: seq<string>)
    requires forall i | 0 <= i < |names| :: |names[i]| > 0 && ']' !in names[i]
    ensures Matches(Bracketed(names)) == names
    decreases |names|
  {
    if |names| > 0 {
      MatchesBracketFront(names[0], Bracketed(names[1..]));
      MatchesBracketed(names[1..]);
    }
  }

  /** A suffix of a closed string is closed. */
  lemma {:induction false} ClosedSuffix(s: string, j: nat)
    requires Closed(s) && j <= |s|
    ensures Closed(s[j..])
  {
    forall i | 0 <= i < |s[j..]| && s[j..][i] == '['
      ensures ']' in s[j..][i + 1..]
    {
      assert s[j + i] == '[';
      assert s[j..][i + 1..] == s[j + i + 1..];
    }
  }

  /** Closed text is scanned on its own: the matches of a concatenation are
      those of the parts. */
  lemma {:induction false} MatchesAppend(a: string, b: string)
    requires Closed(a)
    ensures Matches(a + b) == Matches(a) + Matches(b)
    decreases |a|
  {
    if |a| == 0 {
      assert a + b == b;
    } else {
      assert ']' in a[1..] || a[0] != '[';
      if a[0] == '[' && IndexOf(a[1..], ']') > 0 {
        var k := IndexOf(a[1..], ']');
        MatchesAppendTake(a, b);
        ClosedSuffix(a, k + 2);
        MatchesAppend(a[k + 2..], b);
        MatchesAppendTakeStep(a, b, k);
      } else {
        MatchesAppendSkip(a, b);
        ClosedSuffix(a, 1);
        MatchesAppend(a[1..], b);
      }
    }
  }

  /** The step of `MatchesAppend` past a match at the front. */
  lemma {:induction false} MatchesAppendTakeStep(a: string, b: string, k: nat)
    requires k + 2 <= |a|
    requires Matches(a) == [a[1..k + 1]] + Matches(a[k + 2..])
    requires Matches(a + b) == [a[1..k + 1]] + Matches(a[k + 2..] + b)
    requires Matches(a[k + 2..] + b) == Matches(a[k + 2..]) + Matches(b)
    ensures Matches(a + b) == Matches(a) + Matches(b)
  {
    var x := [a[1..k + 1]];
    assert x + (Matches(a[k + 2..]) + Matches(b)) == (x + Matches(a[k + 2..])) + Matches(b);
  }

  /** A match at the front of closed text is a match at the front of any
      continuation of it. */
  lemma {:induction false} MatchesAppendTake(a: string, b: string)
    requires Closed(a) && |a| > 0 && a[0] == '[' && IndexOf(a[1..], ']') > 0
    ensures var k := IndexOf(a[1..], ']');
      k + 2 <= |a| && Matches(a) == [a[1..k + 1]] + Matches(a[k + 2..])
      && Matches(a + b) == [a[1..k + 1]] + Matches(a[k + 2..] + b)
  {
    var s := a + b;
    assert s[1..] == a[1..] + b;
    IndexOfAppend(a[1..], b, ']');
    var k := IndexOf(a[1..], ']');
    MatchesTake(a);
    MatchesTake(s);
    assert s[1..k + 1] == a[1..k + 1];
    assert s[k + 2..] == a[k + 2..] + b;
  }

  /** When no match starts at the front of closed text, none starts there in
      any continuation of it. */
  lemma {:induction false} MatchesAppendSkip(a: string, b: string)
    requires Closed(a) && |a| > 0 && !(a[0] == '[' && IndexOf(a[1..], ']') > 0)
    ensures Matches(a) == Matches(a[1..]) && Matches(a + b) == Matches(a[1..] + b)
  {
    var s := a + b;
    assert s[1..] == a[1..] + b;
    if a[0] == '[' {
      IndexOfAppend(a[1..], b, ']');
    }
    MatchesSkip(a);
    MatchesSkip(s);
  }

  /** Text ending in a closing bracket is closed. */
  lemma {:induction false} EndsClosed(s: string)
    requires |s| > 0 && s[|s| - 1] == ']'
    ensures Closed(s)
  {
    forall i | 0 <= i < |s| && s[i] == '['
      ensures ']' in s[i + 1..]
    {
      assert s[i + 1..][|s| - i - 2] == ']';
    }
  }

  /** An opening bracket inside a would-be placeholder is part of the name,
      and empty brackets are no placeholder. */
  lemma {:induction false} MatchesExamples()
    ensures Matches("[a[b]") == ["a[b"]
    ensures Matches("[]") == []
  {
    MatchesBracketFront("a[b", "");
    assert "[" + "a[b" + "]" + "" == "[a[b]";
    var e := "[]";
    assert e[1..] == "]" && IndexOf(e[1..], ']') == 0;
    assert e[1..][1..] == "";
  }

  // ---------------------------------------------------------------------------
  // The page state

  /** The snackbar kinds. */
  datatype SnackbarType = Info | Success | Error

  /** A snackbar message with its title. */
  datatype Snackbar = Snackbar(title: string, message: string, kind: SnackbarType)

  /** The generator page: the template under edit, the generated JSON, the tag
      input, the multi-option dialog and the last snackbar shown. */
  datatype Page = Page(
    template: Prompt,
    generated: string,
    tagsInput: string,
    dialogOpen: bool,
    optionName: string,
    optionValues: string,
    snackbar: Option<Snackbar>)

  /** The snackbar for generating from empty content. */
  const EmptyContentError: Snackbar :=
    Snackbar("Error", "Please enter prompt content before generating", Error)

  /** `GeneratePrompt`: refuses empty content with an error snackbar and no
      other change; otherwise collects the distinct placeholders of the
      content in first-occurrence order, replaces the tags when the tag input
      is not empty, and serialises the template. */
  function GeneratePrompt(g: Page, serialize: Prompt -> string): (r: Page)
    ensures |g.template.content| == 0 ==> r == g.(snackbar := Some(EmptyContentError))
    ensures |g.template.content| > 0 ==>
      && r.template == g.template.(placeholders := r.template.placeholders, tags := r.template.tags)
      && NoDup(r.template.placeholders)
      && (forall x :: x in r.template.placeholders <==> x in Matches(g.template.content))
      && (|g.tagsInput| > 0 ==> r.template.tags == ParseCommaList(g.tagsInput))
      && (|g.tagsInput| == 0 ==> r.template.tags == g.template.tags)
      && r.generated == serialize(r.template)
      && r.snackbar.Some? && r.snackbar.value.kind == Success
      && r == g.(template := r.template, generated := r.generated, snackbar := r.snackbar)
  {
    if |g.template.content| == 0 then g.(snackbar := Some(EmptyContentError))
    else
      var found := Distinct(Matches(g.template.content));
      var tags := if |g.tagsInput| > 0 then ParseCommaList(g.tagsInput) else g.template.tags;
      var t := g.template.(placeholders := found, tags := tags);
      g.(template := t, generated := serialize(t),
         snackbar := Some(Snackbar("Generated!", "Prompt JSON generated successfully", Success)))
  }

  /** Placeholders are listed in the order they first occur in the content. */
  lemma {:induction false} GeneratedPlaceholderOrder(g: Page, serialize: Prompt -> string, i: nat, j: nat)
    requires |g.template.content| > 0
    requires i < j < |GeneratePrompt(g, serialize).template.placeholders|
    ensures var ps := GeneratePrompt(g, serialize).template.placeholders;
      IndexOf(Matches(g.template.content), ps[i]) < IndexOf(Matches(g.template.content), ps[j])
  {
  }

  /** Tags written as a comma-separated list are generated back as written. */
  lemma {:induction false} GeneratedTagsRoundTrip(g: Page, serialize: Prompt -> string, tags: seq<string>)
    requires |g.template.content| > 0 && |tags| > 0
    requires forall i | 0 <= i < |tags| :: Typeable(tags[i])
    requires g.tagsInput == Join(",", tags)
    ensures GeneratePrompt(g, serialize).template.tags == tags
  {
    ParseJoined(tags);
  }

  // ---------------------------------------------------------------------------
  // Content helpers

  /** The content with a snippet added on a new line, or the snippet alone
      when the content is empty. */
  function AppendLine(content: string, snippet: string): (r: string)
    ensures |r| == |content| + |snippet| + (if |content| == 0 then 0 else 1)
    ensures r[..|content|] == content
    ensures r[|r| - |snippet|..] == snippet
    ensures |content| > 0 ==> r[|content|] == '\n'
  {
    if |content| == 0 then snippet else content + "\n" + snippet
  }

  /** `r` is `g` with `snippet` added to the template content: the old content
      first, then a line break unless it was empty, then the snippet and
      nothing more; the rest of the page is unchanged. */
  predicate Appended(g: Page, r: Page, snippet: string)
  {
    var prior := g.template.content;
    var grown := r.template.content;
    && r == g.(template := g.template.(content := grown))
    && |grown| == |prior| + |snippet| + (if |prior| == 0 then 0 else 1)
    && grown[..|prior|] == prior
    && (|prior| > 0 ==> grown[|prior|] == '\n')
    && grown[|grown| - |snippet|..] == snippet
  }

  /** The template content replaced, the rest of the page unchanged. */
  function WithContent(g: Page, content: string): Page
  {
    g.(template := g.template.(content := content))
  }

  /** A marker followed by one bracketed name. */
  function Marked(marker: string, name: string): string
  {
    marker + ("[" + name + "]")
  }

  /** The three-item bullet list snippet, `• [item 1]\n• [item 2]\n• [item 3]`. */
  const BulletList: string := Marked("• ", "item 1") + (Marked("\n• ", "item 2") + Marked("\n• ", "item 3"))

  /** The three-item numbered list snippet, `1. [item 1]\n2. [item 2]\n3. [item 3]`. */
  const NumberedList: string := Marked("1. ", "item 1") + (Marked("\n2. ", "item 2") + Marked("\n3. ", "item 3"))

  /** The heading snippet. */
  const Heading: string := "# [heading text]"

  /** The quote snippet. */
  const Quote: string := "> [quote text]"

  /** `InsertText`: appends `before` immediately followed by `after`. */
  function InsertText(g: Page, before: string, after: string): (r: Page)
    ensures Appended(g, r, before + after)
  {
    WithContent(g, AppendLine(g.template.content, before + after))
  }

  /** `InsertPlaceholder`: appends the name in brackets. */
  function InsertPlaceholder(g: Page, name: string): (r: Page)
    ensures Appended(g, r, "[" + name + "]")
  {
    WithContent(g, AppendLine(g.template.content, "[" + name + "]"))
  }

  /** `InsertBulletList`. */
  function InsertBulletList(g: Page): (r: Page)
    ensures Appended(g, r, BulletList)
  {
    WithContent(g, AppendLine(g.template.content, BulletList))
  }

  /** `InsertNumberedList`. */
  function InsertNumberedList(g: Page): (r: Page)
    ensures Appended(g, r, NumberedList)
  {
    WithContent(g, AppendLine(g.template.content, NumberedList))
  }

  /** `InsertHeading`. */
  function InsertHeading(g: Page): (r: Page)
    ensures Appended(g, r, Heading)
  {
    WithContent(g, AppendLine(g.template.content, Heading))
  }

  /** `InsertQuote`. */
  function InsertQuote(g: Page): (r: Page)
    ensures Appended(g, r, Quote)
  {
    WithContent(g, AppendLine(g.template.content, Quote))
  }

  /** Appending a snippet to closed content adds the snippet's placeholders
      after the content's own. */
  lemma {:induction false} AppendLineMatches(content: string, snippet: string)
    requires Closed(content)
    ensures Matches(AppendLine(content, snippet)) == Matches(content) + Matches(snippet)
  {
    if |content| == 0 {
      assert Matches(content) == [];
    } else {
      MatchesAppend(content, "\n" + snippet);
      MatchesPlainFront("\n", snippet);
      assert content + "\n" + snippet == content + ("\n" + snippet);
    }
  }

  /** Closed content stays closed when a snippet ending in a bracket is appended. */
  lemma {:induction false} AppendLineClosed(content: string, snippet: string)
    requires |snippet| > 0 && snippet[|snippet| - 1] == ']'
    ensures Closed(AppendLine(content, snippet))
  {
    EndsClosed(AppendLine(content, snippet));
  }

  /** A single bracketed name is one match. */
  lemma {:induction false} SingleMatch(name: string)
    requires |name| > 0 && ']' !in name
    ensures Matches("[" + name + "]") == [name]
  {
    MatchesBracketFront(name, "");
    assert "[" + name + "]" + "" == "[" + name + "]";
  }

  /** A marker without brackets followed by one bracketed name carries that name. */
  lemma {:induction false} MarkedMatches(marker: string, name: string)
    requires '[' !in marker && |name| > 0 && ']' !in name
    ensures Matches(marker + ("[" + name + "]")) == [name]
  {
    SingleMatch(name);
    MatchesPlainFront(marker, "[" + name + "]");
  }

  /** The heading snippet carries its one placeholder. */
  lemma {:induction false} HeadingMatches()
    ensures Matches(Heading) == ["heading text"]
  {
    MarkedMatches("# ", "heading text");
    assert Heading == "# " + ("[" + "heading text" + "]");
  }

  /** The quote snippet carries its one placeholder. */
  lemma {:induction false} QuoteMatches()
    ensures Matches(Quote) == ["quote text"]
  {
    MarkedMatches("> ", "quote text");
    assert Quote == "> " + ("[" + "quote text" + "]");
  }

  /** An inserted placeholder is found by the next generation, provided the
      content before it had no dangling opening bracket; the content stays
      closed. */
  lemma {:induction false} InsertedPlaceholderGenerated(g: Page, name: string, serialize: Prompt -> string)
    requires Closed(g.template.content) && |name| > 0 && ']' !in name
    ensures Closed(InsertPlaceholder(g, name).template.content)
    ensures Matches(InsertPlaceholder(g, name).template.content) == Matches(g.template.content) + [name]
    ensures name in GeneratePrompt(InsertPlaceholder(g, name), serialize).template.placeholders
  {
    var c := AppendLine(g.template.content, "[" + name + "]");
    AppendLineMatches(g.template.content, "[" + name + "]");
    SingleMatch(name);
    assert name in Matches(c);
    AppendLineClosed(g.template.content, "[" + name + "]");
  }

  /** Every helper except free text leaves the content closed, so a
      placeholder inserted next is found as written. */
  lemma {:induction false} InsertsLeaveContentClosed(g: Page, name: string)
    ensures Closed(InsertPlaceholder(g, name).template.content)
    ensures Closed(InsertBulletList(g).template.content)
    ensures Closed(InsertNumberedList(g).template.content)
    ensures Closed(InsertHeading(g).template.content)
    ensures Closed(InsertQuote(g).template.content)
  {
    var t := "[" + name + "]";
    assert t[|t| - 1] == ']';
    AppendLineClosed(g.template.content, t);
    AppendLineClosed(g.template.content, BulletList);
    AppendLineClosed(g.template.content, NumberedList);
    AppendLineClosed(g.template.content, Heading);
    AppendLineClosed(g.template.content, Quote);
  }

  /** The heading and quote helpers add their placeholder after those of
      closed content. */
  lemma {:induction false} InsertedHeadingQuoteMatch(g: Page)
    requires Closed(g.template.content)
    ensures Matches(InsertHeading(g).template.content) == Matches(g.template.content) + ["heading text"]
    ensures Matches(InsertQuote(g).template.content) == Matches(g.template.content) + ["quote text"]
  {
    HeadingMatches();
    QuoteMatches();
    AppendLineMatches(g.template.content, Heading);
    AppendLineMatches(g.template.content, Quote);
  }

  /** Free text appended to closed content keeps the content in front and adds
      the text's own placeholders after the content's. */
  lemma {:induction false} InsertTextKeepsPlaceholders(g: Page, before: string, after: string)
    requires Closed(g.template.content)
    ensures var c := InsertText(g, before, after).template.content;
      && c[..|g.template.content|] == g.template.content
      && Matches(c) == Matches(g.template.content) + Matches(before + after)
      && InsertText(g, before, after) == g.(template := g.template.(content := c))
  {
    AppendLineMatches(g.template.content, before + after);
  }

  /** Three marked lines, each carrying one bracketed name, carry the three
      names in order. */
  lemma {:induction false} ThreeMarkedLines(m1: string, n1: string, m2: string, n2: string, m3: string, n3: string)
    requires '[' !in m1 && '[' !in m2 && '[' !in m3
    requires |n1| > 0 && |n2| > 0 && |n3| > 0 && ']' !in n1 && ']' !in n2 && ']' !in n3
    ensures Matches(Marked(m1, n1) + (Marked(m2, n2) + Marked(m3, n3))) == [n1, n2, n3]
  {
    var a, b, c := Marked(m1, n1), Marked(m2, n2), Marked(m3, n3);
    assert a[|a| - 1] == ']' && b[|b| - 1] == ']';
    EndsClosed(a);
    EndsClosed(b);
    MatchesAppend(a, b + c);
    MatchesAppend(b, c);
    MarkedMatches(m1, n1);
    MarkedMatches(m2, n2);
    MarkedMatches(m3, n3);
  }

  /** The bullet list snippet carries its three item placeholders. */
  lemma {:induction false} BulletListMatches()
    ensures Matches(BulletList) == ["item 1", "item 2", "item 3"]
  {
    ThreeMarkedLines("• ", "item 1", "\n• ", "item 2", "\n• ", "item 3");
  }

  /** The numbered list snippet carries its three item placeholders. */
  lemma {:induction false} NumberedListMatches()
    ensures Matches(NumberedList) == ["item 1", "item 2", "item 3"]
  {
    ThreeMarkedLines("1. ", "item 1", "\n2. ", "item 2", "\n3. ", "item 3");
  }

  /** The list helpers add their three item placeholders after those of closed
      content. */
  lemma {:induction false} InsertedListsMatch(g: Page)
    requires Closed(g.template.content)
    ensures Matches(InsertBulletList(g).template.content) == Matches(g.template.content) + ["item 1", "item 2", "item 3"]
    ensures Matches(InsertNumberedList(g).template.content) == Matches(g.template.content) + ["item 1", "item 2", "item 3"]
  {
    BulletListMatches();
    NumberedListMatches();
    AppendLineMatches(g.template.content, BulletList);
    AppendLineMatches(g.template.content, NumberedList);
  }

  // ---------------------------------------------------------------------------
  // Multi-option placeholders

  /** `ShowMultiOptionDialog`: opens the dialog with empty fields. */
  function ShowMultiOptionDialog(g: Page): (r: Page)
    ensures r.dialogOpen && r.optionName == "" && r.optionValues == ""
    ensures r == g.(dialogOpen := true, optionName := "", optionValues := "")
  {
    g.(dialogOpen := true, optionName := "", optionValues := "")
  }

  /** `CloseMultiOptionDialog`: closes the dialog and clears its fields. */
  function CloseMultiOptionDialog(g: Page): (r: Page)
    ensures !r.dialogOpen && r.optionName == "" && r.optionValues == ""
    ensures r == g.(dialogOpen := false, optionName := "", optionValues := "")
  {
    g.(dialogOpen := false, optionName := "", optionValues := "")
  }

  /** The placeholder for a name and its comma-separated options:
      `[name/option1/.../optionN]`. */
  function MultiOptionToken(name: string, values: string): string
  {
    "[" + (name + "/" + Join("/", ParseCommaList(values))) + "]"
  }

  /** The snackbar for a missing name or option list. */
  const MissingOptionsError: Snackbar :=
    Snackbar("Error", "Please enter both placeholder name and options", Error)

  /** `InsertMultiOption`: refuses with an error snackbar when the name or the
      options are empty; otherwise appends the multi-option placeholder,
      closes and clears the dialog, and reports success. */
  function InsertMultiOption(g: Page): (r: Page)
    ensures |g.optionName| == 0 || |g.optionValues| == 0 ==> r == g.(snackbar := Some(MissingOptionsError))
    ensures |g.optionName| > 0 && |g.optionValues| > 0 ==>
      && r.template.content == AppendLine(g.template.content, MultiOptionToken(g.optionName, g.optionValues))
      && !r.dialogOpen && r.optionName == "" && r.optionValues == ""
      && r.snackbar.Some? && r.snackbar.value.kind == Success
      && r.template == g.template.(content := r.template.content)
      && r.generated == g.generated && r.tagsInput == g.tagsInput
  {
    if |g.optionName| == 0 || |g.optionValues| == 0 then g.(snackbar := Some(MissingOptionsError))
    else
      var token := MultiOptionToken(g.optionName, g.optionValues);
      var inserted := WithContent(g, AppendLine(g.template.content, token));
      CloseMultiOptionDialog(inserted).(snackbar := Some(Snackbar("Inserted!", "Multi-option placeholder added successfully", Success)))
  }

  /** The placeholder body for a name and its options: slash-separated. */
  lemma {:induction false} MultiOptionBody(name: string, options: seq<string>)
    requires |options| > 0
    requires forall i | 0 <= i < |options| :: Typeable(options[i])
    ensures MultiOptionToken(name, Join(",", options)) == "[" + Join("/", [name] + options) + "]"
  {
    var parts := [name] + options;
    assert parts[1..] == options;
    assert Join("/", parts) == name + "/" + Join("/", options);
    ParseJoined(options);
  }

  /** Options typed as a comma-separated list are read back from the inserted
      placeholder as one match: the name and the options joined by slashes. */
  lemma {:induction false} MultiOptionMatch(name: string, options: seq<string>)
    requires |name| > 0 && ']' !in name
    requires |options| > 0
    requires forall i | 0 <= i < |options| :: Typeable(options[i]) && ']' !in options[i]
    ensures Matches(MultiOptionToken(name, Join(",", options))) == [Join("/", [name] + options)]
  {
    var parts := [name] + options;
    forall i | 0 <= i < |parts|
      ensures ']' !in parts[i]
    {
      if i > 0 {
        assert parts[i] == options[i - 1];
      }
    }
    MultiOptionBody(name, options);
    JoinChars("/", parts, ']');
    SingleMatch(Join("/", parts));
  }

  /** The slash-separated parts of that match are the name and the options. */
  lemma {:induction false} MultiOptionParts(name: string, options: seq<string>)
    requires '/' !in name
    requires forall i | 0 <= i < |options| :: '/' !in options[i]
    ensures SplitAll(Join("/", [name] + options), '/') == [name] + options
  {
    var parts := [name] + options;
    forall i | 0 <= i < |parts|
      ensures '/' !in parts[i]
    {
      if i > 0 {
        assert parts[i] == options[i - 1];
      }
    }
    assert "/" == ['/'];
    SplitJoin(parts, '/');
  }
}
