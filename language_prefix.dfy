/**
 * Target-language tags for multilingual translation models: models whose
 * name marks them as multilingual expect the target code in front of the
 * text.
 */
module LanguagePrefix {
  import opened TextUtil
  import opened ValueObjects

  const LanguageCodes: map<string, string> := map[
    "es" := ">>spa<<",
    "pt" := ">>por<<",
    "fr" := ">>fra<<",
    "it" := ">>ita<<",
    "ro" := ">>ron<<",
    "ca" := ">>cat<<"
  ]

  /** needs_prefix(model_name) */
  predicate NeedsPrefix(modelName: string)
  {
    Contains(modelName, "itc-itc") || Contains(modelName, "roa")
  }

  /**
   * add_prefix(text, language_pair, model_name): the target's code and a
   * space before the text when the model needs it and the target is known;
   * otherwise the text unchanged.
   */
  function AddPrefix(text: string, pair: LanguagePair, modelName: string): (r: string)
    ensures !NeedsPrefix(modelName) ==> r == text
    ensures NeedsPrefix(modelName) && pair.target in LanguageCodes ==> r == LanguageCodes[pair.target] + " " + text
    ensures pair.target !in LanguageCodes ==> r == text
  {
    if !NeedsPrefix(modelName) then text
    else if pair.target in LanguageCodes && LanguageCodes[pair.target] != [] then LanguageCodes[pair.target] + " " + text
    else text
  }

  /**
   * The text can always be recovered: it is the result, or the result
   * without the eight characters of a tag and its space.
   */
  lemma AddPrefixRecoverable(text: string, pair: LanguagePair, modelName: string)
    ensures var r := AddPrefix(text, pair, modelName);
      r == text || (|r| == |text| + 8 && r[8..] == text && r[..2] == ">>" && r[5..8] == "<< ")
  {
    var r := AddPrefix(text, pair, modelName);
    if r != text {
      var code := LanguageCodes[pair.target];
      assert |code| == 7 && code[..2] == ">>" && code[5..] == "<<";
      assert r == code + " " + text;
    }
  }
}
