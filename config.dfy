/** The deployment settings the service reads at start-up and the probe
    `checkApiConfig` that reports which of them are usable. */
module Config {

  const ApiKeyPlaceholder := "sua_chave_api_aqui"
  const LabEmailPlaceholder := "seu-email-laboratorio@unifor.br"
  const DefaultLabEmail := "labomidia@unifor.br"

  /** The raw build-time variables `VITE_GOOGLE_API_KEY`,
      `VITE_SPREADSHEET_ID`, `VITE_LAB_EMAIL` and `VITE_APPS_SCRIPT_URL`; an
      unset variable reads as the empty string. */
  datatype Env = Env(apiKey: string, spreadsheetId: string, labEmail: string, appsScriptUrl: string)

  /** `LAB_EMAIL`: the configured lab address, or the default when unset. */
  function LabEmail(env: Env): (r: string)
    ensures r != ""
    ensures env.labEmail != "" ==> r == env.labEmail
    ensures env.labEmail == "" ==> r == DefaultLabEmail
  {
    if env.labEmail != "" then env.labEmail else DefaultLabEmail
  }

  /** The report `checkApiConfig` returns. */
  datatype ApiConfig = ApiConfig(
    apiKeyConfigured: bool,
    spreadsheetConfigured: bool,
    labEmailConfigured: bool,
    appsScriptConfigured: bool,
    allConfigured: bool,
    labEmail: string,
    appsScriptUrl: string)

  /** `checkApiConfig()`. The lab e-mail reported is `LAB_EMAIL`: the
      variable when set, its default otherwise. It always has a value,
      so it counts as configured unless it is the placeholder, and it never
      decides `allConfigured`; `allConfigured` ignores the placeholders. */
  function CheckApiConfig(env: Env): (r: ApiConfig)
    ensures r.apiKeyConfigured <==> env.apiKey != "" && env.apiKey != ApiKeyPlaceholder
    ensures r.spreadsheetConfigured <==> env.spreadsheetId != ""
    ensures r.appsScriptConfigured <==> env.appsScriptUrl != ""
    ensures r.labEmailConfigured <==> env.labEmail != LabEmailPlaceholder
    ensures r.allConfigured <==> env.apiKey != "" && env.spreadsheetId != "" && env.appsScriptUrl != ""
    ensures r.allConfigured ==> r.spreadsheetConfigured && r.appsScriptConfigured
    ensures r.apiKeyConfigured && r.spreadsheetConfigured && r.appsScriptConfigured ==> r.allConfigured
    ensures r.labEmail == LabEmail(env)
    ensures r.labEmail != "" && (env.labEmail == "" ==> r.labEmail == DefaultLabEmail)
    ensures r.appsScriptUrl == env.appsScriptUrl
  {
    var labEmail := LabEmail(env);
    ApiConfig(
      apiKeyConfigured := env.apiKey != "" && env.apiKey != ApiKeyPlaceholder,
      spreadsheetConfigured := env.spreadsheetId != "",
      labEmailConfigured := labEmail != "" && labEmail != LabEmailPlaceholder,
      appsScriptConfigured := env.appsScriptUrl != "",
      allConfigured := env.apiKey != "" && env.spreadsheetId != "" && labEmail != "" && env.appsScriptUrl != "",
      labEmail := labEmail,
      appsScriptUrl := env.appsScriptUrl)
  }

  /** The placeholder API key is reported as not configured, yet the
      deployment is still reported as fully configured. */
  lemma PlaceholderKeyStillAllConfigured(spreadsheetId: string, labEmail: string, url: string)
    requires spreadsheetId != "" && url != ""
    ensures var r := CheckApiConfig(Env(ApiKeyPlaceholder, spreadsheetId, labEmail, url));
      !r.apiKeyConfigured && r.allConfigured
  {
  }
}
