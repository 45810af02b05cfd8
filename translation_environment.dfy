/**
 * Provider selection and credential lookup for a translation run, read from
 * the process environment (Services/TranslationEnvironment.cs), and the
 * language tags each translation mode uses.
 */
module TranslationEnvironment {
  import opened Wrappers
  import opened Text
  import opened Env

  datatype TranslationMode = EnglishToPortuguese | PortugueseToEnglish

  datatype TranslationProvider = AzureSpeech | OpenAi

  datatype TranslationEnvironment = TranslationEnvironment(
    provider: TranslationProvider,
    apiKey: string,
    region: Option<string>,
    endpoint: Option<string>)

  /** The outcome of `TryCreateFromEnvironment`: its return value and its two out-parameters. */
  datatype CreateOutcome<E> = CreateOutcome(success: bool, environment: Option<E>, errorMessage: string)

  const DefaultOpenAiEndpoint: string := "https://api.openai.com/v1"
  const AzureConfigurationError: string :=
    "Para TRANSLATION_PROVIDER=azure, configure AZURE_SPEECH_KEY (ou SPEECH_KEY) e AZURE_SPEECH_REGION (ou SPEECH_REGION)."
  const OpenAiConfigurationError: string := "Para TRANSLATION_PROVIDER=openai, configure OPENAI_API_KEY."

  /** `ParseProvider`: OpenAi exactly for `openai` or `open-ai` in any letter case. */
  function ParseProvider(provider: string): (p: TranslationProvider)
    ensures p == OpenAi <==> EqualsIgnoreCase(provider, "openai") || EqualsIgnoreCase(provider, "open-ai")
  {
    if EqualsIgnoreCase(provider, "openai") || EqualsIgnoreCase(provider, "open-ai") then OpenAi
    else AzureSpeech
  }

  /** `FirstNonEmpty`: the first argument that is neither null nor blank. */
  function FirstNonEmpty(values: seq<Option<string>>): (r: Option<string>)
    ensures r.None? <==> forall i :: 0 <= i < |values| ==> IsNullOrBlank(values[i])
    ensures r.Some? ==> !IsBlank(r.value)
    ensures r.Some? ==> exists i :: 0 <= i < |values| && values[i] == r
                          && forall j :: 0 <= j < i ==> IsNullOrBlank(values[j])
  {
    if values == [] then None
    else if !IsNullOrBlank(values[0]) then values[0]
    else
      var r := FirstNonEmpty(values[1..]);
      FirstNonEmptyShift(values, r);
      r
  }

  lemma {:induction false} FirstNonEmptyShift(values: seq<Option<string>>, r: Option<string>)
    requires values != [] && IsNullOrBlank(values[0])
    requires r.Some? ==> exists i :: 0 <= i < |values[1..]| && values[1..][i] == r
                          && forall j :: 0 <= j < i ==> IsNullOrBlank(values[1..][j])
    ensures r.Some? ==> exists i :: 0 <= i < |values| && values[i] == r
                          && forall j :: 0 <= j < i ==> IsNullOrBlank(values[j])
  {
    if r.Some? {
      var i :| 0 <= i < |values[1..]| && values[1..][i] == r
                && forall j :: 0 <= j < i ==> IsNullOrBlank(values[1..][j]);
      assert values[i + 1] == r;
      forall j | 0 < j < i + 1 ensures IsNullOrBlank(values[j]) {
        assert values[j] == values[1..][j - 1];
      }
    }
  }

  /** `TryCreateFromEnvironment`: the provider, key, region and endpoint a run will use. */
  function TryCreateFromEnvironment(env: Environment): (r: CreateOutcome<TranslationEnvironment>)
    ensures r.success <==> r.environment.Some?
    ensures r.success <==> r.errorMessage == ""
    ensures r.success ==> !IsBlank(r.environment.value.apiKey)
  {
    var provider := ParseProvider(GetVariable(env, "TRANSLATION_PROVIDER").GetOr("azure"));
    if provider == AzureSpeech then
      var apiKey := FirstNonEmpty([
        GetVariable(env, "AZURE_SPEECH_KEY"),
        GetVariable(env, "SPEECH_KEY"),
        GetVariable(env, "AZURE_SUBSCRIPTION_KEY")]);
      var region := FirstNonEmpty([
        GetVariable(env, "AZURE_SPEECH_REGION"),
        GetVariable(env, "SPEECH_REGION")]);
      if IsNullOrBlank(apiKey) || IsNullOrBlank(region) then
        CreateOutcome(false, None, AzureConfigurationError)
      else
        CreateOutcome(true, Some(TranslationEnvironment(AzureSpeech, apiKey.value, region, None)), "")
    else
      var openAiApiKey := FirstNonEmpty([GetVariable(env, "OPENAI_API_KEY"), GetVariable(env, "API_KEY")]);
      if IsNullOrBlank(openAiApiKey) then
        CreateOutcome(false, None, OpenAiConfigurationError)
      else
        var endpoint := FirstNonEmpty([GetVariable(env, "OPENAI_ENDPOINT"), Some(DefaultOpenAiEndpoint)]);
        CreateOutcome(true, Some(TranslationEnvironment(OpenAi, openAiApiKey.value, None, endpoint)), "")
  }

  /** The provider is OpenAi exactly when TRANSLATION_PROVIDER names it; a missing variable means Azure. */
  lemma {:induction false} ProviderSelection(env: Environment)
    requires TryCreateFromEnvironment(env).success
    ensures var p := TryCreateFromEnvironment(env).environment.value.provider;
      (p == OpenAi <==>
         ("TRANSLATION_PROVIDER" in env
          && (EqualsIgnoreCase(env["TRANSLATION_PROVIDER"], "openai")
              || EqualsIgnoreCase(env["TRANSLATION_PROVIDER"], "open-ai"))))
  {
    assert !EqualsIgnoreCase("azure", "openai") by { assert FoldCase('a') != FoldCase('o'); }
    assert !EqualsIgnoreCase("azure", "open-ai");
  }

  /** Azure succeeds exactly when some key variable and some region variable are set and not blank. */
  lemma {:induction false} AzureConfiguration(env: Environment)
    requires ParseProvider(GetVariable(env, "TRANSLATION_PROVIDER").GetOr("azure")) == AzureSpeech
    ensures var r := TryCreateFromEnvironment(env);
      && (r.success <==>
          (!IsNullOrBlank(GetVariable(env, "AZURE_SPEECH_KEY"))
           || !IsNullOrBlank(GetVariable(env, "SPEECH_KEY"))
           || !IsNullOrBlank(GetVariable(env, "AZURE_SUBSCRIPTION_KEY")))
          && (!IsNullOrBlank(GetVariable(env, "AZURE_SPEECH_REGION"))
              || !IsNullOrBlank(GetVariable(env, "SPEECH_REGION"))))
      && (r.success ==> r.environment.value.provider == AzureSpeech && r.environment.value.endpoint == None)
      && (r.success && !IsNullOrBlank(GetVariable(env, "AZURE_SPEECH_KEY"))
          ==> r.environment.value.apiKey == env["AZURE_SPEECH_KEY"])
      && (r.success && !IsNullOrBlank(GetVariable(env, "AZURE_SPEECH_REGION"))
          ==> r.environment.value.region == Some(env["AZURE_SPEECH_REGION"]))
  {
    var keys := [
        GetVariable(env, "AZURE_SPEECH_KEY"),
        GetVariable(env, "SPEECH_KEY"),
        GetVariable(env, "AZURE_SUBSCRIPTION_KEY")];
    var regions := [GetVariable(env, "AZURE_SPEECH_REGION"), GetVariable(env, "SPEECH_REGION")];
    assert FirstNonEmpty(keys).None? <==> IsNullOrBlank(keys[0]) && IsNullOrBlank(keys[1]) && IsNullOrBlank(keys[2]);
    assert FirstNonEmpty(regions).None? <==> IsNullOrBlank(regions[0]) && IsNullOrBlank(regions[1]);
  }

  /** OpenAI succeeds exactly when OPENAI_API_KEY or API_KEY is set; the endpoint defaults to the public API. */
  lemma {:induction false} OpenAiConfiguration(env: Environment)
    requires ParseProvider(GetVariable(env, "TRANSLATION_PROVIDER").GetOr("azure")) == OpenAi
    ensures var r := TryCreateFromEnvironment(env);
      && (r.success <==>
          !IsNullOrBlank(GetVariable(env, "OPENAI_API_KEY")) || !IsNullOrBlank(GetVariable(env, "API_KEY")))
      && (r.success ==> r.environment.value.provider == OpenAi && r.environment.value.region == None)
      && (r.success ==>
            r.environment.value.endpoint ==
              (if IsNullOrBlank(GetVariable(env, "OPENAI_ENDPOINT")) then Some(DefaultOpenAiEndpoint)
               else GetVariable(env, "OPENAI_ENDPOINT")))
  {
    var keys := [GetVariable(env, "OPENAI_API_KEY"), GetVariable(env, "API_KEY")];
    assert FirstNonEmpty(keys).None? <==> IsNullOrBlank(keys[0]) && IsNullOrBlank(keys[1]);
    var endpoints := [GetVariable(env, "OPENAI_ENDPOINT"), Some(DefaultOpenAiEndpoint)];
    assert !IsBlank(DefaultOpenAiEndpoint) by { assert !IsWhiteSpace(DefaultOpenAiEndpoint[0]); }
    if IsNullOrBlank(endpoints[0]) {
      assert FirstNonEmpty(endpoints) == FirstNonEmpty(endpoints[1..]);
    }
  }

  /** `GetRecognitionLanguage`: the tag of the language spoken. */
  function GetRecognitionLanguage(mode: TranslationMode): string {
    if mode == EnglishToPortuguese then "en-US" else "pt-BR"
  }

  /** `GetTargetLanguage`: the tag of the language translated into. */
  function GetTargetLanguage(mode: TranslationMode): string {
    if mode == EnglishToPortuguese then "pt-BR" else "en"
  }
}
