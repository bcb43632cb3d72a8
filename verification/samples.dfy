/** Sample values shown for placeholders in the generator preview, by field
    type and placeholder name. */
module Samples {
  import opened Strings

  /** A sample value: never empty. */
  type Sample = s: string | |s| > 0 witness "?"

  /** Sample values for text placeholders, by lower-cased name. */
  const TextSamples: map<string, Sample> := map[
    "task" := "write a professional email",
    "task description" := "write a professional email",
    "topic" := "artificial intelligence",
    "tone" := "professional",
    "length" := "200 words",
    "audience" := "business professionals",
    "style" := "formal",
    "format" := "bullet points",
    "language" := "English",
    "purpose" := "informational",
    "context" := "business meeting",
    "company" := "TechCorp Inc.",
    "business" := "TechCorp Inc.",
    "product" := "mobile application",
    "service" := "consulting services",
    "industry" := "technology",
    "location" := "San Francisco",
    "date" := "2024-01-15",
    "time" := "2:00 PM",
    "budget" := "$10,000",
    "timeline" := "3 months",
    "goal" := "increase user engagement",
    "objective" := "increase user engagement"]

  /** `GetTextSampleValue`: the table entry, or `sample_` followed by the name
      with spaces turned into underscores. */
  function TextSample(placeholder: string): (v: string)
    ensures |v| > 0
    ensures placeholder in TextSamples ==> v == TextSamples[placeholder]
    ensures placeholder !in TextSamples ==> |v| == 7 + |placeholder|
    ensures placeholder !in TextSamples ==> v[..7] == "sample_" && v[7..] == ReplaceChar(placeholder, ' ', '_')
  {
    if placeholder in TextSamples then TextSamples[placeholder]
    else "sample_" + ReplaceChar(placeholder, ' ', '_')
  }

  /** A rule of `GetSelectSampleValue`: any of the keywords selects the value. */
  datatype SelectRule = SelectRule(keywords: seq<string>, value: Sample)

  /** The select rules, tried in this order. */
  const SelectRules: seq<SelectRule> := [
    SelectRule(["genre"], "Fiction"),
    SelectRule(["platform"], "Facebook"),
    SelectRule(["style", "tone"], "Professional"),
    SelectRule(["level", "difficulty"], "Beginner"),
    SelectRule(["frequency"], "Weekly"),
    SelectRule(["size"], "Medium"),
    SelectRule(["priority"], "High"),
    SelectRule(["business type", "company type"], "SaaS"),
    SelectRule(["industry"], "Technology"),
    SelectRule(["budget"], "$15K - $50K"),
    SelectRule(["timeline", "duration"], "1 month"),
    SelectRule(["goals", "purpose"], "Lead Generation")]

  /** The default select sample. */
  const DefaultOption: Sample := "Option 1"

  /** The placeholder contains one of the rule's keywords. */
  predicate Fires(placeholder: string, rule: SelectRule)
  {
    exists k | 0 <= k < |rule.keywords| :: Contains(placeholder, rule.keywords[k])
  }

  /** The value of the first rule that fires, or the default. */
  function FirstRule(placeholder: string, rules: seq<SelectRule>): (v: Sample)
    ensures (forall i | 0 <= i < |rules| :: !Fires(placeholder, rules[i])) ==> v == DefaultOption
    ensures forall i | 0 <= i < |rules| && Fires(placeholder, rules[i]) ::
              (forall j | 0 <= j < i :: !Fires(placeholder, rules[j])) ==> v == rules[i].value
  {
    if |rules| == 0 then DefaultOption
    else if Fires(placeholder, rules[0]) then rules[0].value
    else
      var v := FirstRule(placeholder, rules[1..]);
      assert forall i | 1 <= i < |rules| :: rules[i] == rules[1..][i - 1];
      v
  }

  /** `GetSelectSampleValue`. */
  function SelectSample(placeholder: string): (v: Sample)
    ensures (forall i | 0 <= i < |SelectRules| :: !Fires(placeholder, SelectRules[i])) ==> v == DefaultOption
    ensures forall i | 0 <= i < |SelectRules| && Fires(placeholder, SelectRules[i]) ::
              (forall j | 0 <= j < i :: !Fires(placeholder, SelectRules[j])) ==> v == SelectRules[i].value
  {
    FirstRule(placeholder, SelectRules)
  }

  /** The default is given exactly when no rule fires. */
  lemma {:induction false} SelectSampleDefault(placeholder: string)
    ensures SelectSample(placeholder) == DefaultOption <==>
            forall i | 0 <= i < |SelectRules| :: !Fires(placeholder, SelectRules[i])
  {
    if exists i | 0 <= i < |SelectRules| :: Fires(placeholder, SelectRules[i]) {
      var i := FirstFiring(placeholder, SelectRules);
      assert SelectRules[i].value != DefaultOption;
    }
  }

  /** The position of the first rule that fires. */
  lemma {:induction false} FirstFiring(placeholder: string, rules: seq<SelectRule>) returns (i: nat)
    requires exists i | 0 <= i < |rules| :: Fires(placeholder, rules[i])
    ensures i < |rules| && Fires(placeholder, rules[i])
    ensures forall j | 0 <= j < i :: !Fires(placeholder, rules[j])
  {
    i := 0;
    while !Fires(placeholder, rules[i])
      invariant i < |rules|
      invariant forall j | 0 <= j < i :: !Fires(placeholder, rules[j])
      invariant exists k | i <= k < |rules| :: Fires(placeholder, rules[k])
      decreases |rules| - i
    {
      i := i + 1;
    }
  }

  /** Earlier rules win: when rule `i` fires, the sample is the value of the
      first firing rule, which is `i` or one before it; in particular a
      placeholder mentioning a genre always gets the genre sample. */
  lemma {:induction false} SelectSampleFirstWins(placeholder: string, i: nat)
    requires i < |SelectRules| && Fires(placeholder, SelectRules[i])
    ensures exists j | 0 <= j <= i :: Fires(placeholder, SelectRules[j])
              && (forall l | 0 <= l < j :: !Fires(placeholder, SelectRules[l]))
              && SelectSample(placeholder) == SelectRules[j].value
    ensures Contains(placeholder, "genre") ==> SelectSample(placeholder) == "Fiction"
  {
    var j := FirstFiring(placeholder, SelectRules);
    assert j <= i;
    if Contains(placeholder, "genre") {
      assert SelectRules[0].keywords[0] == "genre";
      assert Fires(placeholder, SelectRules[0]);
    }
  }

  /** `GetSampleValue`: dispatches on the lower-cased field type and looks up
      the lower-cased placeholder. */
  function SampleValue(placeholder: string, fieldType: string): (v: string)
    ensures |v| > 0
    ensures ToLower(fieldType) == "email" ==> v == "user@example.com"
    ensures ToLower(fieldType) == "url" ==> v == "https://example.com"
    ensures ToLower(fieldType) == "number" ==> v == "42"
    ensures ToLower(fieldType) == "textarea" ==> v == "Detailed description here..."
    ensures ToLower(fieldType) == "select" ==> v == SelectSample(ToLower(placeholder))
    ensures ToLower(fieldType) !in {"email", "url", "number", "textarea", "select"} ==> v == TextSample(ToLower(placeholder))
  {
    var p := ToLower(placeholder);
    var t := ToLower(fieldType);
    if t == "email" then "user@example.com"
    else if t == "url" then "https://example.com"
    else if t == "number" then "42"
    else if t == "textarea" then "Detailed description here..."
    else if t == "select" then
      SelectSample(p)
    else
      TextSample(p)
  }

  /** The sample ignores the case of both the placeholder and the field type,
      and an unknown field type is treated as text. */
  lemma {:induction false} SampleValueIgnoresCase(placeholder: string, fieldType: string)
    ensures SampleValue(placeholder, fieldType) == SampleValue(ToLower(placeholder), ToLower(fieldType))
    ensures ToLower(fieldType) !in {"email", "url", "number", "textarea", "select"} ==>
              SampleValue(placeholder, fieldType) == TextSample(ToLower(placeholder))
  {
    ToLowerFacts(placeholder);
    ToLowerFacts(fieldType);
  }
}
