/**
 * The configuration normalisers of src/config.ts. The module-level `config`, read once
 * from the configuration file, is passed to each function as a parameter.
 */
module Config {
  import opened Wrappers
  import opened Types
  import opened Text

  const DefaultTheme := "vanilla"
  const DefaultRefreshIntervalMs := 5000
  const DefaultListenHost := "0.0.0.0"
  const DefaultListenPort := 3000

  // ---------------------------------------------------------------------------
  // Reading the configuration
  // ---------------------------------------------------------------------------

  /** The `users` property of the parsed JSON: an array, or some other value. */
  datatype UsersField = UsersArray(users: seq<UserConfig>) | UsersNotArray

  /** The parsed configuration file before its `users` property is checked. */
  datatype ParsedConfig = ParsedConfig(
    clientName: string,
    apiVersion: string,
    refreshIntervalMs: Option<int>,
    defaultTheme: Option<string>,
    listen: Option<ListenConfig>,
    users: Option<UsersField>)

  predicate HasUsers(parsed: ParsedConfig) {
    parsed.users.Some? && parsed.users.value.UsersArray? && |parsed.users.value.users| > 0
  }

  /**
   * `readConfigFile` after the file has been read and parsed (`contents` is absent when the
   * file does not exist): the configuration is accepted only with a non-empty `users` array.
   */
  function ReadConfigFile(path: string, contents: Option<ParsedConfig>): (r: Result<AppConfig, string>)
    ensures r.Ok? <==> contents.Some? && HasUsers(contents.value)
    ensures r.Ok? ==> |r.value.users| > 0 && r.value.users == contents.value.users.value.users
    ensures r.Ok? ==> r.value.clientName == contents.value.clientName && r.value.apiVersion == contents.value.apiVersion
    ensures r.Ok? ==> && r.value.refreshIntervalMs == contents.value.refreshIntervalMs
                      && r.value.defaultTheme == contents.value.defaultTheme
                      && r.value.listen == contents.value.listen
    ensures contents.None? ==> r == Err("Missing configuration file. Expected at " + path)
  {
    if contents.None? then
      Err("Missing configuration file. Expected at " + path)
    else if !HasUsers(contents.value) then
      Err("Configuration must include at least one user in the \"users\" array.")
    else
      var p := contents.value;
      Ok(AppConfig(p.clientName, p.apiVersion, p.refreshIntervalMs, p.defaultTheme, p.listen, p.users.value.users))
  }

  // ---------------------------------------------------------------------------
  // Users and refresh interval
  // ---------------------------------------------------------------------------

  /** `users.find((user) => user.slug === slug)`. */
  function FindUser(users: seq<UserConfig>, slug: string): (r: Option<UserConfig>)
    ensures r.None? <==> forall u :: u in users ==> u.slug != slug
    ensures r.Some? ==> r.value in users && r.value.slug == slug
  {
    if users == [] then None
    else if users[0].slug == slug then Some(users[0])
    else FindUser(users[1..], slug)
  }

  /** `getUserConfig`: the first configured user with the slug, or nothing when none has it. */
  function GetUserConfig(config: AppConfig, slug: string): (r: Option<UserConfig>)
    ensures r.None? <==> forall u :: u in config.users ==> u.slug != slug
    ensures r.Some? ==> r.value in config.users && r.value.slug == slug
  {
    FindUser(config.users, slug)
  }

  /** `users[i]` is the first user whose slug is `slug`. */
  predicate IsFirstWithSlug(users: seq<UserConfig>, slug: string, i: int) {
    0 <= i < |users| && users[i].slug == slug && forall j :: 0 <= j < i ==> users[j].slug != slug
  }

  lemma {:induction false} FindUserIsFirstWithSlug(users: seq<UserConfig>, slug: string)
    ensures FindUser(users, slug).None? <==> forall i :: 0 <= i < |users| ==> users[i].slug != slug
    ensures FindUser(users, slug).Some? ==>
      exists i :: IsFirstWithSlug(users, slug, i) && users[i] == FindUser(users, slug).value
  {
    if users != [] && users[0].slug != slug {
      var rest := users[1..];
      FindUserIsFirstWithSlug(rest, slug);
      assert forall j :: 1 <= j < |users| ==> users[j] == rest[j - 1];
      if FindUser(rest, slug).Some? {
        var k :| IsFirstWithSlug(rest, slug, k) && rest[k] == FindUser(rest, slug).value;
        assert IsFirstWithSlug(users, slug, k + 1);
      }
    } else if users != [] {
      assert IsFirstWithSlug(users, slug, 0);
    }
  }

  /** The user's own interval applies when it is a number above zero. */
  predicate UsesOverride(user: Option<UserConfig>) {
    user.Some? && user.value.refreshIntervalMs.Some? && user.value.refreshIntervalMs.value > 0
  }

  /** `getRefreshIntervalMs`: the user's positive override, else the configured interval, else 5000. */
  function GetRefreshIntervalMs(config: AppConfig, user: Option<UserConfig>): (r: int)
    ensures UsesOverride(user) ==> r == user.value.refreshIntervalMs.value
    ensures !UsesOverride(user) ==> r == config.refreshIntervalMs.GetOr(DefaultRefreshIntervalMs)
    ensures (config.refreshIntervalMs.None? || config.refreshIntervalMs.value > 0) ==> r > 0
  {
    if UsesOverride(user) then user.value.refreshIntervalMs.value
    else config.refreshIntervalMs.GetOr(DefaultRefreshIntervalMs)
  }

  // ---------------------------------------------------------------------------
  // Themes
  // ---------------------------------------------------------------------------

  /** One character of `THEME_NAME_PATTERN`, `/^[a-z0-9-]+$/i`: the flag admits capitals too. */
  predicate PatternChar(c: char) {
    'a' <= c <= 'z' || 'A' <= c <= 'Z' || '0' <= c <= '9' || c == '-'
  }

  predicate MatchesThemePattern(s: string) {
    |s| > 0 && forall i :: 0 <= i < |s| ==> PatternChar(s[i])
  }

  /** A normalised theme name: non-empty, lower-case letters, digits and hyphens only. */
  predicate IsThemeName(s: string) {
    |s| > 0 && forall i :: 0 <= i < |s| ==> ('a' <= s[i] <= 'z' || '0' <= s[i] <= '9' || s[i] == '-')
  }

  /**
   * `normalizeTheme`: the trimmed, lower-cased theme when it is a valid theme name; nothing
   * for an absent, empty or blank theme, or one with a character outside `[a-z0-9-]`.
   */
  function NormalizeTheme(theme: Option<string>): (r: Option<string>)
    ensures r.None? <==> theme.None? || !IsThemeName(ToLower(Trim(theme.value)))
    ensures r.Some? ==> r.value == ToLower(Trim(theme.value)) && IsThemeName(r.value)
  {
    if !Truthy(theme) then None
    else
      var trimmed := ToLower(Trim(theme.value));
      if trimmed == "" then None
      else if !MatchesThemePattern(trimmed) then None
      else Some(trimmed)
  }

  /** A normalised theme is already trimmed and lower case, so normalising it again changes nothing. */
  lemma NormalizeThemeIdempotent(theme: Option<string>)
    requires NormalizeTheme(theme).Some?
    ensures var name := NormalizeTheme(theme).value;
      Trim(name) == name && ToLower(name) == name && NormalizeTheme(Some(name)) == Some(name)
  {
    var name := NormalizeTheme(theme).value;
    TrimNoop(name);
    ToLowerNoop(name);
  }

  lemma DefaultThemeIsThemeName()
    ensures IsThemeName(DefaultTheme)
  {
    var s := DefaultTheme;
    assert s[0] == 'v' && s[1] == 'a' && s[2] == 'n' && s[3] == 'i' && s[4] == 'l' && s[5] == 'l' && s[6] == 'a';
  }

  /** `getTheme`: the user's theme, else the configured default theme, else `vanilla`; always a valid name. */
  function GetTheme(config: AppConfig, user: Option<UserConfig>): (r: string)
    ensures IsThemeName(r)
    ensures user.Some? && NormalizeTheme(user.value.theme).Some? ==> r == NormalizeTheme(user.value.theme).value
    ensures (user.None? || NormalizeTheme(user.value.theme).None?) && NormalizeTheme(config.defaultTheme).Some? ==>
      r == NormalizeTheme(config.defaultTheme).value
    ensures (user.None? || NormalizeTheme(user.value.theme).None?) && NormalizeTheme(config.defaultTheme).None? ==>
      r == DefaultTheme
  {
    var userTheme := NormalizeTheme(if user.Some? then user.value.theme else None);
    if userTheme.Some? then userTheme.value
    else
      var defaultTheme := NormalizeTheme(config.defaultTheme);
      if defaultTheme.Some? then defaultTheme.value
      else DefaultThemeIsThemeName(); DefaultTheme
  }

  // ---------------------------------------------------------------------------
  // Listen address
  // ---------------------------------------------------------------------------

  datatype ListenAddress = ListenAddress(host: string, port: int)

  predicate HasHost(listen: Option<ListenConfig>) {
    listen.Some? && listen.value.host.Some? && |Trim(listen.value.host.value)| > 0
  }

  predicate HasPortInRange(listen: Option<ListenConfig>) {
    listen.Some? && listen.value.port.Some? && 0 < listen.value.port.value.Floor < 65536
  }

  /**
   * `normalizeListenConfig`: the trimmed host if non-empty, else 0.0.0.0; the port rounded
   * down if that lies in 1..65535, else 3000. The port is always a valid TCP port.
   */
  function NormalizeListenConfig(listen: Option<ListenConfig>): (r: ListenAddress)
    ensures 1 <= r.port <= 65535
    ensures r.host != "" && Trim(r.host) == r.host
    ensures HasHost(listen) ==> r.host == Trim(listen.value.host.value)
    ensures !HasHost(listen) ==> r.host == DefaultListenHost
    ensures HasPortInRange(listen) ==> r.port == listen.value.port.value.Floor
    ensures !HasPortInRange(listen) ==> r.port == DefaultListenPort
  {
    var host := if HasHost(listen) then Trim(listen.value.host.value) else DefaultListenHost;
    assert host[0] != ' ' && host[|host| - 1] != ' ' by {
      if !HasHost(listen) {
        assert host[0] == '0' && host[|host| - 1] == '0';
      }
    }
    TrimmedIsFixed(host);
    if listen.Some? && listen.value.port.Some? then
      var normalizedPort := listen.value.port.value.Floor;
      if normalizedPort > 0 && normalizedPort < 65536 then ListenAddress(host, normalizedPort)
      else ListenAddress(host, DefaultListenPort)
    else ListenAddress(host, DefaultListenPort)
  }

  // ---------------------------------------------------------------------------
  // Theme options
  // ---------------------------------------------------------------------------

  /** `normalizeThemeOptions`: the shadow style, lower-cased, when it is one of the allowed styles. */
  function NormalizeThemeOptions(options: Option<ThemeOptions>): (r: Option<ThemeShadowStyle>)
    ensures r.Some? ==> options.Some? && Truthy(options.value.shadowStyle) && r.value.Name() == ToLower(options.value.shadowStyle.value)
    ensures options.Some? && options.value.shadowStyle.Some? && ToLower(options.value.shadowStyle.value) in {"none", "macos"} ==> r.Some?
  {
    if options.None? || !Truthy(options.value.shadowStyle) then None
    else
      var candidate := ToLower(options.value.shadowStyle.value);
      if candidate == "none" then Some(ShadowNone)
      else if candidate == "macos" then Some(ShadowMacos)
      else None
  }

  /** The user's configured shadow style text, if any. */
  function UserShadowStyle(user: Option<UserConfig>): Option<string> {
    if user.Some? && user.value.themeOptions.Some? then user.value.themeOptions.value.shadowStyle else None
  }

  /**
   * `getThemeOptions`: the defaults overlaid with the normalised options. The user's style is
   * kept when it names an allowed style in any letter case; otherwise the style is `none`.
   */
  function GetThemeOptions(user: Option<UserConfig>): (r: ResolvedThemeOptions)
    ensures UserShadowStyle(user).Some? && ToLower(UserShadowStyle(user).value) in {"none", "macos"} ==>
      r.shadowStyle.Name() == ToLower(UserShadowStyle(user).value)
    ensures !(UserShadowStyle(user).Some? && ToLower(UserShadowStyle(user).value) in {"none", "macos"}) ==>
      r.shadowStyle == ShadowNone
  {
    var normalized := NormalizeThemeOptions(if user.Some? then user.value.themeOptions else None);
    ResolvedThemeOptions(normalized.GetOr(ShadowNone))
  }
}
