/** The records of src/types.ts. Optional properties are `Option`s; JSON numbers are integers here. */
module Types {
  import opened Wrappers

  /** `ThemeShadowStyle`: the two shadow styles a theme may ask for. */
  datatype ThemeShadowStyle = ShadowNone | ShadowMacos {
    function Name(): string {
      match this
      case ShadowNone => "none"
      case ShadowMacos => "macos"
    }
  }

  /** `ThemeOptions` as written in the configuration or carried in a snapshot: any text may stand in `shadowStyle`. */
  datatype ThemeOptions = ThemeOptions(shadowStyle: Option<string>)

  /** `ThemeOptions` after normalisation, where `shadowStyle` is always present and allowed. */
  datatype ResolvedThemeOptions = ResolvedThemeOptions(shadowStyle: ThemeShadowStyle)

  /** `ListenConfig`; the port is a JSON number, so it may have a fractional part. */
  datatype ListenConfig = ListenConfig(host: Option<string>, port: Option<real>)

  datatype UserConfig = UserConfig(
    slug: string,
    serverUrl: string,
    username: string,
    password: Option<string>,
    token: Option<string>,
    salt: Option<string>,
    useTokenAuth: Option<bool>,
    refreshIntervalMs: Option<int>,
    theme: Option<string>,
    themeOptions: Option<ThemeOptions>)

  datatype AppConfig = AppConfig(
    clientName: string,
    apiVersion: string,
    refreshIntervalMs: Option<int>,
    defaultTheme: Option<string>,
    listen: Option<ListenConfig>,
    users: seq<UserConfig>)

  datatype NowPlayingEntry = NowPlayingEntry(
    id: string,
    title: Option<string>,
    album: Option<string>,
    artist: Option<string>,
    duration: Option<int>,
    coverArt: Option<string>,
    username: Option<string>,
    minutesAgo: Option<int>,
    playerName: Option<string>,
    created: Option<string>)

  /** `entry?: NowPlayingEntry | NowPlayingEntry[]`: the upstream sends one object or a list. */
  datatype EntryField = Single(entry: NowPlayingEntry) | Many(entries: seq<NowPlayingEntry>)

  datatype NowPlaying = NowPlaying(entry: Option<EntryField>)

  datatype ApiError = ApiError(code: int, message: string)

  /** The object under the `subsonic-response` key. */
  datatype SubsonicResponse = SubsonicResponse(
    status: string,
    nowPlaying: Option<NowPlaying>,
    error: Option<ApiError>)

  datatype NowPlayingResponseBody = NowPlayingResponseBody(subsonicResponse: SubsonicResponse)

  /** JavaScript truthiness of an optional string: present and not empty. */
  predicate Truthy(s: Option<string>) {
    s.Some? && s.value != ""
  }
}
