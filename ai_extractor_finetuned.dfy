/**
 * The fine-tuned extractor (ai_extractor_finetuned.py): one model call for
 * name, email, phone and date of birth, a reply parsed into exactly those
 * four keys or nothing, and a merge in which the regex value wins and the
 * model only fills the gaps.
 *
 * The model, its loading and its generation are outside the model: the
 * reply is an input, and json.loads is the oracle `loads` (None when the
 * text is not a JSON object).
 */
module AiExtractorFinetuned {
  import opened Text
  import opened Json
  import opened AiExtractorOld
  import AiExtractor

  const FinetunedFields: seq<string> := ["name", "email", "phone", "date_of_birth"]
  const FinetunedKeys: set<string> := {"name", "email", "phone", "date_of_birth"}

  // ---------------------------------------------------------------------------
  // _parse_json_response
  // ---------------------------------------------------------------------------

  /** The four fields of a parsed object, each None (null) when absent. */
  function FourFields(data: Dict): (r: Dict)
    ensures r.Keys == FinetunedKeys
    ensures forall k :: k in FinetunedKeys ==> r[k] == Get(data, k)
  {
    map["name" := Get(data, "name"), "email" := Get(data, "email"), "phone" := Get(data, "phone"),
        "date_of_birth" := Get(data, "date_of_birth")]
  }

  /**
   * _parse_json_response: fences removed and the text stripped, then the
   * first flat brace pair; when it parses, its four fields; on no match or
   * a parse failure, {}.
   */
  function ParseJsonResponse(response: string, loads: string -> Option<Dict>): Dict {
    var cleaned := Strip(AiExtractor.StripFences(response, 0));
    var flat := FlatBraceSearch(cleaned, 0);
    if flat.None? then map[]
    else match loads(flat.value)
      case None => map[]
      case Some(data) => FourFields(data)
  }

  /**
   * The reply gives either exactly the four keys or {}: the four keys
   * exactly when a flat object was found in the cleaned reply and parsed,
   * each holding that object's value (null when it lacks the key).
   */
  lemma ParseJsonResponseShape(response: string, loads: string -> Option<Dict>)
    ensures var r := ParseJsonResponse(response, loads);
            r == map[] || r.Keys == FinetunedKeys
    ensures var flat := FlatBraceSearch(Strip(AiExtractor.StripFences(response, 0)), 0);
            var r := ParseJsonResponse(response, loads);
            (r.Keys == FinetunedKeys <==> flat.Some? && loads(flat.value).Some?) &&
            (r.Keys == FinetunedKeys ==>
               FlatObjectText(flat.value) &&
               forall k :: k in FinetunedKeys ==> r[k] == Get(loads(flat.value).value, k))
  {
    assert "name" in FinetunedKeys;
  }

  /** The first flat brace pair of a text that is one flat object is the whole text. */
  lemma FlatSearchWhole(t: string)
    requires FlatObjectText(t)
    ensures FlatBraceSearch(t, 0) == Some(t)
  {
    assert forall k :: 1 <= k < |t| - 1 ==> NotBrace(t[k]);
    SkipToLastBrace(t);
    assert t[0..|t|] == t;
  }

  /** From 1 the non-brace characters run up to the closing brace. */
  lemma SkipToLastBrace(t: string)
    requires FlatObjectText(t)
    ensures SkipLeft(t, 1, NotBrace) == |t| - 1
  {
    assert !NotBrace(t[|t| - 1]);
  }

  /**
   * A reply that is one flat JSON object, without backticks, gives exactly
   * that object's four fields; if it does not parse, {}.
   */
  lemma BareObjectReply(t: string, loads: string -> Option<Dict>)
    requires FlatObjectText(t)
    requires forall k :: 0 <= k < |t| ==> t[k] != '`'
    ensures loads(t).Some? ==> ParseJsonResponse(t, loads) == FourFields(loads(t).value)
    ensures loads(t).None? ==> ParseJsonResponse(t, loads) == map[]
  {
    AiExtractor.BareBody(t);
    assert AiExtractor.StripFences(t, 0) == t;
    StripUnspaced(t);
    assert Strip(t) == t;
    FlatSearchWhole(t);
  }

  // ---------------------------------------------------------------------------
  // extract_all_fields and validate_and_enhance
  // ---------------------------------------------------------------------------

  /** extract_all_fields: {} when the model is unavailable, else the parsed reply. */
  function AllFieldsFinetuned(available: bool, reply: string, loads: string -> Option<Dict>): (r: Dict)
    ensures !available ==> r == map[]
    ensures r == map[] || r.Keys == FinetunedKeys
  {
    ParseJsonResponseShape(reply, loads);
    if !available then map[] else ParseJsonResponse(reply, loads)
  }

  lemma FinetunedFieldsApart()
    ensures MergeFields(FinetunedFields)
  {
    forall i, j | 0 <= i < |FinetunedFields| && 0 <= j < |FinetunedFields|
      ensures FinetunedFields[i] + "_source" != FinetunedFields[j]
    {
      assert |FinetunedFields[i] + "_source"| != |FinetunedFields[j]|;
    }
  }

  /**
   * validate_and_enhance: the regex results unchanged when the model is
   * unavailable; else the gap-filling merge over the four fields, marked
   * ai_enhanced.
   */
  function EnhancedFinetuned(available: bool, regex: Dict, ai: Dict): Dict {
    if !available then regex else Filled(regex, ai, FinetunedFields)["ai_enhanced" := Bool(true)]
  }

  method ValidateAndEnhanceFinetuned(available: bool, regex: Dict, reply: string, loads: string -> Option<Dict>)
    returns (r: Dict)
    ensures r == EnhancedFinetuned(available, regex, AllFieldsFinetuned(available, reply, loads))
  {
    if !available {
      return regex;
    }
    var ai := AllFieldsFinetuned(available, reply, loads);
    r := FillFields(regex, ai, FinetunedFields);
    r := r["ai_enhanced" := Bool(true)];
  }

  /**
   * A present regex value is kept and tagged "Regex"; an empty one takes a
   * present model value tagged "AI"; with neither the field is as the regex
   * left it; and the result is marked ai_enhanced.
   */
  lemma EnhancedFinetunedFacts(regex: Dict, ai: Dict, f: string)
    requires f in FinetunedFields
    ensures EnhancedFinetuned(false, regex, ai) == regex
    ensures var r := EnhancedFinetuned(true, regex, ai);
            Get(r, "ai_enhanced") == Bool(true) &&
            (Truthy(Get(regex, f)) ==> Get(r, f) == regex[f] && Get(r, f + "_source") == Str("Regex")) &&
            (!Truthy(Get(regex, f)) && Truthy(Get(ai, f)) ==> Get(r, f) == ai[f] && Get(r, f + "_source") == Str("AI")) &&
            (!Truthy(Get(regex, f)) && !Truthy(Get(ai, f)) ==> Get(r, f) == Get(regex, f))
  {
    FinetunedFieldsApart();
    FilledAt(regex, ai, FinetunedFields, f);
    assert (f + "_source")[0] == f[0] != 'a';
  }
}
