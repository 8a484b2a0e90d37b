/** The API keys and testing flag, and how a saved configuration is laid over them at startup. */
module Settings {
  import opened Common

  datatype ApiKeys = ApiKeys(bls: string, eia: string, usda: string)

  /** The mutable part of CONFIG: API_KEYS and TESTING_MODE. */
  datatype Config = Config(keys: ApiKeys, testingEnabled: bool, forceErrors: bool)

  /** CONFIG as the script declares it: empty keys, live mode, no forced errors. */
  const Defaults: Config := Config(ApiKeys("", "", ""), false, false)

  /** The fields of the saved configuration blob; a field missing from it is None. */
  datatype SavedConfig = SavedConfig(bls: Option<string>, eia: Option<string>, usda: Option<string>, testingMode: Option<bool>)

  /** JavaScript's `saved || current` on a string field: a missing or empty saved value is falsy. */
  function KeyOr(saved: Option<string>, current: string): string {
    if saved.Some? && saved.value != "" then saved.value else current
  }

  /** The assignments of loadApiConfiguration. */
  function Overlay(c: Config, saved: SavedConfig): Config {
    Config(
      ApiKeys(KeyOr(saved.bls, c.keys.bls), KeyOr(saved.eia, c.keys.eia), KeyOr(saved.usda, c.keys.usda)),
      saved.testingMode == Some(true),
      c.forceErrors)
  }

  /** The blob saveApiConfiguration writes: every field present. */
  function SavedFrom(keys: ApiKeys, testing: bool): SavedConfig {
    SavedConfig(Some(keys.bls), Some(keys.eia), Some(keys.usda), Some(testing))
  }

  /**
   * A saved key replaces the current one exactly when it is present and non-empty; the testing
   * flag becomes the saved flag, or false when none was saved; FORCE_ERRORS is never saved.
   */
  lemma OverlayKeeps(c: Config, saved: SavedConfig)
    ensures var r := Overlay(c, saved);
      && r.keys.bls == (if saved.bls == None || saved.bls == Some("") then c.keys.bls else saved.bls.value)
      && r.keys.eia == (if saved.eia == None || saved.eia == Some("") then c.keys.eia else saved.eia.value)
      && r.keys.usda == (if saved.usda == None || saved.usda == Some("") then c.keys.usda else saved.usda.value)
      && (r.testingEnabled <==> saved.testingMode == Some(true))
      && r.forceErrors == c.forceErrors
  {
  }

  /** Loading the same saved configuration twice has the effect of loading it once. */
  lemma OverlayIdempotent(c: Config, saved: SavedConfig)
    ensures Overlay(Overlay(c, saved), saved) == Overlay(c, saved)
  {
  }

  /**
   * What was saved is what the next page load restores: an empty key restores the empty
   * default, so even empty keys come back as saved.
   */
  lemma SaveThenReload(keys: ApiKeys, testing: bool)
    ensures Overlay(Defaults, SavedFrom(keys, testing)) == Config(keys, testing, false)
  {
  }
}
