/**
 * The older speech-only configuration (Services/SpeechEnvironment.cs): a key
 * and a region read from the process environment.
 */
module SpeechEnvironment {
  import opened Wrappers
  import opened Text
  import opened Env
  import TE = TranslationEnvironment

  datatype SpeechEnvironment = SpeechEnvironment(speechKey: string, region: string)

  const ConfigurationError: string :=
    "As variáveis SPEECH_KEY (ou AZURE_SUBSCRIPTION_KEY) e SPEECH_REGION devem estar configuradas no .env."

  /** The key lookup: SPEECH_KEY, or AZURE_SUBSCRIPTION_KEY when SPEECH_KEY is missing or blank. */
  function SpeechKey(env: Environment): (key: Option<string>)
    ensures !IsNullOrBlank(GetVariable(env, "SPEECH_KEY")) ==> key == GetVariable(env, "SPEECH_KEY")
    ensures IsNullOrBlank(GetVariable(env, "SPEECH_KEY")) ==> key == GetVariable(env, "AZURE_SUBSCRIPTION_KEY")
  {
    var speechKey := GetVariable(env, "SPEECH_KEY");
    if IsNullOrBlank(speechKey) then GetVariable(env, "AZURE_SUBSCRIPTION_KEY") else speechKey
  }

  /** `TryCreateFromEnvironment`: succeeds exactly when the chosen key and SPEECH_REGION are both present. */
  function TryCreateFromEnvironment(env: Environment): (r: TE.CreateOutcome<SpeechEnvironment>)
    ensures r.success <==> r.environment.Some?
    ensures r.success <==> r.errorMessage == ""
    ensures r.success <==> !IsNullOrBlank(SpeechKey(env)) && !IsNullOrBlank(GetVariable(env, "SPEECH_REGION"))
    ensures r.success ==>
              && Some(r.environment.value.speechKey) == SpeechKey(env)
              && Some(r.environment.value.region) == GetVariable(env, "SPEECH_REGION")
  {
    var speechKey := SpeechKey(env);
    var region := GetVariable(env, "SPEECH_REGION");
    if IsNullOrBlank(speechKey) || IsNullOrBlank(region) then
      TE.CreateOutcome(false, None, ConfigurationError)
    else
      TE.CreateOutcome(true, Some(SpeechEnvironment(speechKey.value, region.value)), "")
  }

  /** `GetRecognitionLanguage`. */
  function GetRecognitionLanguage(mode: TE.TranslationMode): string {
    if mode == TE.EnglishToPortuguese then "en-US" else "pt-BR"
  }

  /** `GetTargetLanguage`. */
  function GetTargetLanguage(mode: TE.TranslationMode): string {
    if mode == TE.EnglishToPortuguese then "pt-BR" else "en"
  }

  /** Both configurations map every mode to the same pair of language tags. */
  lemma {:induction false} SameLanguageMapping(mode: TE.TranslationMode)
    ensures GetRecognitionLanguage(mode) == TE.GetRecognitionLanguage(mode)
    ensures GetTargetLanguage(mode) == TE.GetTargetLanguage(mode)
  {
  }
}
