/**
 * What public/app.js shows and remembers, as a value: the theme, the theme options, the
 * track signature, each text element's content and marquee, the cover image, the dynamic
 * tint and the number of track transitions played. Every handler of the page is a function
 * from one such value to the next; the page's own object (OverlayApp.Overlay) is proved to
 * follow these functions.
 */
module DisplayModel {
  import opened Wrappers
  import opened Types
  import opened Text
  import opened Marquee
  import Config

  const DefaultTheme := "vanilla"
  const FancyTheme := "fancy"
  const ThemeBasePath := "/static/themes/"
  const NoTrackTitle := "No Now Playing"
  const UnknownTrack := "Unknown track"
  const UnknownArtist := "Unknown artist"
  const ShadowVar := "--overlay-shadow"
  const InsetVar := "--layout-safe-inset"
  const MacosShadow := "0 58px 120px rgba(8, 10, 22, 0.55), 0 18px 48px rgba(10, 12, 24, 0.42)"
  const MacosInset := "80px"

  /** The three scrollable text elements. */
  datatype ElementId = Title | Artist | Album

  /**
   * One text element that holds a span: the span's text and the element's entry in
   * `textScrollAnimations`, if any. An element without a span has no `Line`.
   */
  datatype Line = Line(text: string, marquee: Option<ScrollState>)

  datatype Track = Track(id: Option<string>, title: Option<string>, artist: Option<string>, album: Option<string>)

  datatype CoverArt = CoverArt(id: Option<string>, url: Option<string>)

  /** The relay's now-playing snapshot as the page reads it (`fetchedAt` is not read). */
  datatype Snapshot = Snapshot(
    playing: bool,
    track: Option<Track>,
    coverArt: Option<CoverArt>,
    theme: Option<string>,
    themeOptions: Option<ThemeOptions>,
    refreshIntervalMs: Option<int>)

  /**
   * What the page observes of the cover image when a handler asks: whether it has loaded
   * with a size (`complete && naturalWidth > 0`), and whether sampling it yields a colour.
   */
  datatype Artwork = Artwork(ready: bool, sampled: bool)

  datatype View = View(
    theme: string,
    stylesheet: string,
    themeOptions: ResolvedThemeOptions,
    cssVars: map<string, string>,
    signature: Option<string>,
    lines: map<ElementId, Line>,
    coverSrc: string,
    coverHidden: bool,
    tinted: bool,
    transitions: nat)

  predicate LinesValid(lines: map<ElementId, Line>) {
    forall e :: e in lines && lines[e].marquee.Some? ==> Valid(lines[e].marquee.value)
  }

  predicate ShadowVarsAgree(style: ThemeShadowStyle, vars: map<string, string>) {
    match style
    case ShadowMacos => ShadowVar in vars && vars[ShadowVar] == MacosShadow && InsetVar in vars && vars[InsetVar] == MacosInset
    case ShadowNone => ShadowVar !in vars && InsetVar !in vars
  }

  /**
   * The display invariant: every marquee is valid, the body's shadow variables are set
   * exactly for the macOS shadow style, and a dynamic tint is only set under a visible cover.
   */
  predicate ViewInvariant(v: View) {
    && LinesValid(v.lines)
    && ShadowVarsAgree(v.themeOptions.shadowStyle, v.cssVars)
    && (v.tinted ==> !v.coverHidden)
  }

  // ---------------------------------------------------------------------------
  // Themes
  // ---------------------------------------------------------------------------

  function ThemeHref(name: string): string {
    ThemeBasePath + name + ".css"
  }

  /** The theme `applyTheme` wants: the trimmed, lower-cased name, or `vanilla` for an absent or blank one. */
  function DesiredTheme(themeName: Option<string>): (r: string)
    ensures |r| > 0
    ensures themeName.None? || |Trim(themeName.value)| == 0 ==> r == DefaultTheme
    ensures themeName.Some? && |Trim(themeName.value)| > 0 ==>
      |r| == |Trim(themeName.value)| && forall k :: 0 <= k < |r| ==> r[k] == LowerChar(Trim(themeName.value)[k])
  {
    if themeName.Some? && |Trim(themeName.value)| > 0 then ToLower(Trim(themeName.value)) else DefaultTheme
  }

  lemma LowerTrimmedIsNormal(t: string)
    requires t != [] && !IsTrimmable(t[0]) && !IsTrimmable(t[|t| - 1])
    ensures var d := ToLower(t); d != [] && Trim(d) == d && ToLower(d) == d
  {
    var d := ToLower(t);
    LowerKeepsTrimmable(t[0]);
    LowerKeepsTrimmable(t[|t| - 1]);
    TrimmedIsFixed(d);
    ToLowerNoop(d);
  }

  lemma DefaultThemeIsNormal()
    ensures Trim(DefaultTheme) == DefaultTheme && ToLower(DefaultTheme) == DefaultTheme
  {
    var s := DefaultTheme;
    assert |s| == 7;
    assert s[0] == 'v' && s[1] == 'a' && s[2] == 'n' && s[3] == 'i' && s[4] == 'l' && s[5] == 'l' && s[6] == 'a';
    TrimmedIsFixed(s);
    forall i | 0 <= i < |s|
      ensures !('A' <= s[i] <= 'Z')
    {
      assert i in {0, 1, 2, 3, 4, 5, 6};
    }
    ToLowerNoop(s);
  }

  /** A desired theme is non-empty, trimmed and lower case, so asking for it again yields it unchanged. */
  lemma DesiredThemeIsNormal(themeName: Option<string>)
    ensures var d := DesiredTheme(themeName);
      d != "" && Trim(d) == d && ToLower(d) == d && DesiredTheme(Some(d)) == d
  {
    var d := DesiredTheme(themeName);
    if themeName.Some? && |Trim(themeName.value)| > 0 {
      LowerTrimmedIsNormal(Trim(themeName.value));
    } else {
      DefaultThemeIsNormal();
    }
    NormalThemeIsDesired(d);
  }

  /** A theme name the relay resolves (`getTheme`) is loaded by the page under exactly that name. */
  lemma ThemeNameIsDesired(t: string)
    requires Config.IsThemeName(t)
    ensures DesiredTheme(Some(t)) == t
  {
    assert !IsTrimmable(t[0]) && !IsTrimmable(t[|t| - 1]);
    TrimmedIsFixed(t);
    ToLowerNoop(t);
    NormalThemeIsDesired(t);
  }

  /** A non-empty, trimmed, lower-case name is the theme asked for by that name. */
  lemma NormalThemeIsDesired(d: string)
    requires d != "" && Trim(d) == d && ToLower(d) == d
    ensures DesiredTheme(Some(d)) == d
  {
  }

  /** `applyFancyDynamicPalette(true)`: a tint only for the fancy theme with a visible cover that sampled. */
  function ApplyFancyDynamicPalette(v: View, sampled: bool): View {
    if v.theme != FancyTheme || v.coverHidden then v.(tinted := false) else v.(tinted := sampled)
  }

  function ClearFancyDynamicStyling(v: View): View {
    v.(tinted := false)
  }

  /** `applyTheme` once the desired theme is known: switch the stylesheet when it differs from the current one. */
  function SwitchTheme(v: View, desired: string, art: Artwork): View {
    if desired == v.theme then v
    else
      var switched := v.(theme := desired, stylesheet := ThemeHref(desired));
      if desired == FancyTheme then ApplyFancyDynamicPalette(switched, art.sampled)
      else ClearFancyDynamicStyling(switched)
  }

  /** `applyTheme`. */
  function ApplyTheme(v: View, themeName: Option<string>, art: Artwork): View {
    SwitchTheme(v, DesiredTheme(themeName), art)
  }

  /** The stylesheet's error listener: fall back to `vanilla` unless that is already the theme. */
  function OnThemeLoadError(v: View): View {
    if v.theme != DefaultTheme then v.(theme := DefaultTheme, stylesheet := ThemeHref(DefaultTheme)) else v
  }

  /**
   * `applyTheme` leaves the current theme equal to the desired one and the stylesheet
   * pointing at it once it switched; a view already on the desired theme is left alone;
   * only the theme, the stylesheet and the tint can change, and switching to a theme other
   * than fancy clears the tint.
   */
  lemma ApplyThemeSettlesOnDesired(v: View, desired: string, art: Artwork)
    ensures var r := SwitchTheme(v, desired, art);
      && r.theme == desired
      && (r.theme != v.theme ==> r.stylesheet == ThemeHref(r.theme))
      && (v.theme == desired ==> r == v)
      && r == v.(theme := r.theme, stylesheet := r.stylesheet, tinted := r.tinted)
      && (r.theme != v.theme && r.theme != FancyTheme ==> !r.tinted)
  {
  }

  /** A failed stylesheet falls back to `vanilla` once: a second failure, or one on `vanilla`, changes nothing. */
  lemma ThemeErrorFallsBackOnce(v: View)
    ensures OnThemeLoadError(v).theme == DefaultTheme
    ensures OnThemeLoadError(OnThemeLoadError(v)) == OnThemeLoadError(v)
    ensures v.theme == DefaultTheme ==> OnThemeLoadError(v) == v
  {
  }

  // ---------------------------------------------------------------------------
  // Theme options
  // ---------------------------------------------------------------------------

  /** The page's `normalizeThemeOptions`: `macos` in any letter case selects it; anything else is `none`. */
  function NormalizeThemeOptions(options: Option<ThemeOptions>): (r: ResolvedThemeOptions)
    ensures r.shadowStyle == ShadowMacos <==>
      options.Some? && options.value.shadowStyle.Some? && ToLower(options.value.shadowStyle.value) == "macos"
  {
    if options.Some? && options.value.shadowStyle.Some? && ToLower(options.value.shadowStyle.value) == "macos" then
      ResolvedThemeOptions(ShadowMacos)
    else
      ResolvedThemeOptions(ShadowNone)
  }

  /** `setBodyCssVariable` for both shadow variables; an empty value removes a variable. */
  function ShadowVariables(vars: map<string, string>, style: ThemeShadowStyle): (r: map<string, string>)
    ensures ShadowVarsAgree(style, r)
    ensures forall k :: k != ShadowVar && k != InsetVar ==> (k in r <==> k in vars) && (k in vars ==> r[k] == vars[k])
  {
    match style
    case ShadowMacos => vars[ShadowVar := MacosShadow][InsetVar := MacosInset]
    case ShadowNone => vars - {ShadowVar, InsetVar}
  }

  /** `applyThemeOptions`: act only when the normalised shadow style differs from the current one. */
  function ApplyThemeOptions(v: View, options: Option<ThemeOptions>): View {
    var next := NormalizeThemeOptions(options);
    if next.shadowStyle == v.themeOptions.shadowStyle then v
    else v.(themeOptions := next, cssVars := ShadowVariables(v.cssVars, next.shadowStyle))
  }

  /**
   * The options end up normalised and the shadow variables keep following them; the view
   * changes only when the style differs, and then only in the options and the variables.
   */
  lemma ApplyThemeOptionsChangesOnlyOnDifference(v: View, options: Option<ThemeOptions>)
    requires ShadowVarsAgree(v.themeOptions.shadowStyle, v.cssVars)
    ensures var r := ApplyThemeOptions(v, options);
      && r.themeOptions == NormalizeThemeOptions(options)
      && ShadowVarsAgree(r.themeOptions.shadowStyle, r.cssVars)
      && (NormalizeThemeOptions(options) == v.themeOptions ==> r == v)
      && r == v.(themeOptions := r.themeOptions, cssVars := r.cssVars)
  {
  }

  // ---------------------------------------------------------------------------
  // Text and marquee
  // ---------------------------------------------------------------------------

  /** The line an element holds after `wrapScrollableContent(text)`. */
  function WrapLine(lines: map<ElementId, Line>, e: ElementId, text: string): Line {
    if e in lines && lines[e].text == text then lines[e] else Line(text, None)
  }

  /** `wrapScrollableContent`: same text keeps everything; new text tears the marquee down, then installs the text. */
  function WrapScrollableContent(v: View, e: ElementId, text: string): View {
    v.(lines := v.lines[e := WrapLine(v.lines, e, text)])
  }

  /** `stopTextAutoScroll`: cancel everything pending for the element and delete its entry, and only its entry. */
  function StopTextAutoScroll(v: View, e: ElementId): View {
    if e in v.lines then v.(lines := v.lines[e := v.lines[e].(marquee := None)]) else v
  }

  /** `startTextAutoScroll`: tear down first, then store a fresh marquee if there is overflow at all. */
  function StartTextAutoScroll(v: View, e: ElementId, overflow: int): View {
    if e in v.lines then v.(lines := v.lines[e := v.lines[e].(marquee := Start(overflow))]) else v
  }

  /** `evaluateTextOverflow`: with a span, scroll when the overflow exceeds 4 px, otherwise stop. */
  function EvaluateTextOverflow(v: View, e: ElementId, overflow: int): View {
    if e !in v.lines then v
    else if overflow > OverflowThreshold then StartTextAutoScroll(v, e, overflow)
    else StopTextAutoScroll(v, e)
  }

  /** One marquee callback of one element. */
  function ScrollCallback(v: View, e: ElementId, ev: Event): View {
    if e in v.lines && v.lines[e].marquee.Some? then
      v.(lines := v.lines[e := v.lines[e].(marquee := Some(Step(v.lines[e].marquee.value, ev)))])
    else v
  }

  /**
   * Rewrapping with the text already shown changes nothing (the marquee survives); a new
   * text is installed without a marquee. No other element is touched.
   */
  lemma WrapKeepsMarqueeOnlyForSameText(v: View, e: ElementId, text: string)
    ensures var r := WrapScrollableContent(v, e, text);
      && e in r.lines && r.lines[e].text == text
      && (e in v.lines && v.lines[e].text == text ==> r == v)
      && (!(e in v.lines && v.lines[e].text == text) ==> r.lines[e].marquee.None?)
      && (forall o :: o != e ==> (o in r.lines <==> o in v.lines) && (o in v.lines ==> r.lines[o] == v.lines[o]))
  {
  }

  /** Stopping removes that element's marquee and nothing else; its text stays. */
  lemma StopRemovesOnlyThatMarquee(v: View, e: ElementId)
    ensures var r := StopTextAutoScroll(v, e);
      && (e in r.lines ==> r.lines[e].marquee.None?)
      && r == v.(lines := r.lines)
      && (forall o :: (o in r.lines <==> o in v.lines) && (o in v.lines ==> r.lines[o].text == v.lines[o].text))
      && (forall o :: o != e && o in v.lines ==> r.lines[o] == v.lines[o])
  {
  }

  /**
   * Scrolling is armed only above the threshold, always as a fresh marquee waiting on its
   * resume timer (any previous one is gone); at or below it the element has none. The text
   * and the other elements are untouched; an element without a span is left alone.
   */
  lemma EvaluateArmsOnlyAboveThreshold(v: View, e: ElementId, overflow: int)
    ensures var r := EvaluateTextOverflow(v, e, overflow);
      && (e !in v.lines ==> r == v)
      && (e in v.lines ==>
            && e in r.lines && r.lines[e].text == v.lines[e].text
            && (overflow > OverflowThreshold ==> r.lines[e].marquee == Start(overflow) && r.lines[e].marquee.value.holdArmed)
            && (overflow <= OverflowThreshold ==> r.lines[e].marquee.None?))
      && (forall o :: o != e ==> (o in r.lines <==> o in v.lines) && (o in v.lines ==> r.lines[o] == v.lines[o]))
  {
  }

  /** Text 10 px too wide starts scrolling once the hold elapses; text 2 px too wide stays still. */
  lemma OverflowExamples(v: View, e: ElementId)
    requires e in v.lines
    ensures var r := ScrollCallback(EvaluateTextOverflow(v, e, 10), e, HoldElapsed);
      r.lines[e].marquee.Some? && r.lines[e].marquee.value.frameArmed
    ensures EvaluateTextOverflow(v, e, 2).lines[e].marquee.None?
  {
  }

  lemma WrapPreservesInvariant(v: View, e: ElementId, text: string)
    requires ViewInvariant(v)
    ensures ViewInvariant(WrapScrollableContent(v, e, text))
  {
    WrapKeepsMarqueeOnlyForSameText(v, e, text);
  }

  lemma EvaluatePreservesInvariant(v: View, e: ElementId, overflow: int)
    requires ViewInvariant(v)
    ensures ViewInvariant(StopTextAutoScroll(v, e))
    ensures ViewInvariant(EvaluateTextOverflow(v, e, overflow))
  {
    StopRemovesOnlyThatMarquee(v, e);
    EvaluateArmsOnlyAboveThreshold(v, e, overflow);
  }

  lemma CallbackPreservesInvariant(v: View, e: ElementId, ev: Event)
    requires ViewInvariant(v)
    ensures ViewInvariant(ScrollCallback(v, e, ev))
  {
    if e in v.lines && v.lines[e].marquee.Some? {
      var r := ScrollCallback(v, e, ev);
      assert forall o :: o in r.lines && o != e ==> r.lines[o] == v.lines[o];
    }
  }

  /** Every text and marquee handler keeps the display invariant. */
  lemma MarqueeHandlersPreserveInvariant(v: View, e: ElementId, text: string, overflow: int, ev: Event)
    requires ViewInvariant(v)
    ensures ViewInvariant(WrapScrollableContent(v, e, text))
    ensures ViewInvariant(StopTextAutoScroll(v, e))
    ensures ViewInvariant(EvaluateTextOverflow(v, e, overflow))
    ensures ViewInvariant(ScrollCallback(v, e, ev))
  {
    WrapPreservesInvariant(v, e, text);
    EvaluatePreservesInvariant(v, e, overflow);
    CallbackPreservesInvariant(v, e, ev);
  }

  // ---------------------------------------------------------------------------
  // Snapshots
  // ---------------------------------------------------------------------------

  /** `getTrackSignature`: null without a track, else `id|title|artist|album` with missing parts empty. */
  function TrackSignature(track: Option<Track>): (r: Option<string>)
    ensures r.None? <==> track.None?
    ensures r.Some? ==> |r.value| >= 3
  {
    if track.None? then None
    else
      var t := track.value;
      Some(t.id.GetOr("") + "|" + t.title.GetOr("") + "|" + t.artist.GetOr("") + "|" + t.album.GetOr(""))
  }

  /**
   * Missing parts count as empty: two tracks whose parts agree once `null` is read as `""`
   * have the same signature, so such a change plays no transition.
   */
  lemma SameTextSameSignature(a: Track, b: Track)
    requires a.id.GetOr("") == b.id.GetOr("") && a.title.GetOr("") == b.title.GetOr("")
    requires a.artist.GetOr("") == b.artist.GetOr("") && a.album.GetOr("") == b.album.GetOr("")
    ensures TrackSignature(Some(a)) == TrackSignature(Some(b))
  {
  }

  predicate NoBar(s: string) {
    forall i :: 0 <= i < |s| ==> s[i] != '|'
  }

  lemma {:induction false} SplitAtBar(a: string, b: string, c: string, d: string)
    requires NoBar(a) && NoBar(c) && a + "|" + b == c + "|" + d
    ensures a == c && b == d
  {
    var s := a + "|" + b;
    assert forall i :: 0 <= i < |a| ==> s[i] != '|';
    assert forall i :: 0 <= i < |c| ==> s[i] != '|';
    assert s[|a|] == '|' && s[|c|] == '|';
    assert |a| == |c|;
    assert a == s[..|a|] == c;
    assert b == s[|a| + 1..] == d;
  }

  /**
   * A present signature is never empty, and as long as the id, title and artist contain no
   * `|`, two tracks have the same signature only when all four parts agree (missing counting
   * as empty): a signature change is a track change.
   */
  lemma TrackSignatureIdentifiesTrack(a: Track, b: Track)
    ensures TrackSignature(Some(a)).Some? && |TrackSignature(Some(a)).value| >= 3
    ensures (&& NoBar(a.id.GetOr("")) && NoBar(a.title.GetOr("")) && NoBar(a.artist.GetOr(""))
             && NoBar(b.id.GetOr("")) && NoBar(b.title.GetOr("")) && NoBar(b.artist.GetOr(""))
             && TrackSignature(Some(a)) == TrackSignature(Some(b)))
      ==> && a.id.GetOr("") == b.id.GetOr("") && a.title.GetOr("") == b.title.GetOr("")
          && a.artist.GetOr("") == b.artist.GetOr("") && a.album.GetOr("") == b.album.GetOr("")
  {
    var ai, at, aa, al := a.id.GetOr(""), a.title.GetOr(""), a.artist.GetOr(""), a.album.GetOr("");
    var bi, bt, ba, bl := b.id.GetOr(""), b.title.GetOr(""), b.artist.GetOr(""), b.album.GetOr("");
    if NoBar(ai) && NoBar(at) && NoBar(aa) && NoBar(bi) && NoBar(bt) && NoBar(ba)
      && TrackSignature(Some(a)) == TrackSignature(Some(b))
    {
      var sa, sb := TrackSignature(Some(a)).value, TrackSignature(Some(b)).value;
      assert sa == ai + "|" + (at + "|" + (aa + "|" + al));
      assert sb == bi + "|" + (bt + "|" + (ba + "|" + bl));
      SplitAtBar(ai, at + "|" + (aa + "|" + al), bi, bt + "|" + (ba + "|" + bl));
      SplitAtBar(at, aa + "|" + al, bt, ba + "|" + bl);
      SplitAtBar(aa, al, ba, bl);
    }
  }

  function TitleText(p: Snapshot): string {
    if p.track.Some? then p.track.value.title.GetOr(UnknownTrack) else UnknownTrack
  }

  function ArtistText(p: Snapshot): string {
    if p.track.Some? then p.track.value.artist.GetOr(UnknownArtist) else UnknownArtist
  }

  function AlbumText(p: Snapshot): string {
    if p.track.Some? then p.track.value.album.GetOr("") else ""
  }

  function CoverUrl(p: Snapshot): Option<string> {
    if p.coverArt.Some? then p.coverArt.value.url else None
  }

  function Pick(e: ElementId, title: string, artist: string, album: string): string {
    match e
    case Title => title
    case Artist => artist
    case Album => album
  }

  /** The text a snapshot puts in each element. */
  function DisplayedText(p: Snapshot, e: ElementId): string {
    if p.playing then Pick(e, TitleText(p), ArtistText(p), AlbumText(p)) else Pick(e, NoTrackTitle, "", "")
  }

  function WrapAll(v: View, title: string, artist: string, album: string): View {
    WrapScrollableContent(WrapScrollableContent(WrapScrollableContent(v, Title, title), Artist, artist), Album, album)
  }

  /** Wrapping the three elements touches only the lines, each as one `wrapScrollableContent` would. */
  lemma WrapAllEffect(v: View, title: string, artist: string, album: string)
    ensures var r := WrapAll(v, title, artist, album);
      && r == v.(lines := r.lines)
      && forall e :: e in r.lines && r.lines[e] == WrapLine(v.lines, e, Pick(e, title, artist, album))
  {
    var v1 := WrapScrollableContent(v, Title, title);
    var v2 := WrapScrollableContent(v1, Artist, artist);
    var r := WrapScrollableContent(v2, Album, album);
    assert WrapLine(v1.lines, Artist, artist) == WrapLine(v.lines, Artist, artist);
    assert WrapLine(v2.lines, Album, album) == WrapLine(v.lines, Album, album);
    forall e
      ensures e in r.lines && r.lines[e] == WrapLine(v.lines, e, Pick(e, title, artist, album))
    {
      match e
      case Title =>
      case Artist =>
      case Album =>
    }
  }

  /** `clearTrackDisplay`: forget the signature, show the placeholder, hide the cover, clear the tint. */
  function ClearTrackDisplay(v: View): View {
    var wrapped := WrapAll(v.(signature := None), NoTrackTitle, "", "");
    wrapped.(coverSrc := "", coverHidden := true, tinted := false)
  }

  /** `updateTrackDisplay`: the track's texts, and the cover shown when the snapshot has a cover URL. */
  function UpdateTrackDisplay(v: View, p: Snapshot, art: Artwork): View {
    var wrapped := WrapAll(v, TitleText(p), ArtistText(p), AlbumText(p));
    if Truthy(CoverUrl(p)) then
      var shown := wrapped.(coverSrc := CoverUrl(p).value, coverHidden := false);
      if shown.theme == FancyTheme && art.ready then ApplyFancyDynamicPalette(shown, art.sampled) else shown
    else
      wrapped.(coverSrc := "", coverHidden := true, tinted := false)
  }

  /** `triggerTrackTransition`: the transition animation plays once more. */
  function TriggerTrackTransition(v: View): View {
    v.(transitions := v.transitions + 1)
  }

  /** The cover `updateTrackDisplay` leaves: shown with the snapshot's URL, or hidden and untinted. */
  lemma UpdateTrackDisplayEffect(v: View, p: Snapshot, art: Artwork)
    ensures var r := UpdateTrackDisplay(v, p, art);
      && r == v.(lines := r.lines, coverSrc := r.coverSrc, coverHidden := r.coverHidden, tinted := r.tinted)
      && r.lines == WrapAll(v, TitleText(p), ArtistText(p), AlbumText(p)).lines
      && r.coverHidden == !Truthy(CoverUrl(p))
      && r.coverSrc == (if Truthy(CoverUrl(p)) then CoverUrl(p).value else "")
      && (r.coverHidden ==> !r.tinted)
      && (r.tinted ==> v.tinted || (v.theme == FancyTheme && art.ready && art.sampled))
  {
  }

  /** The theme and theme-option steps that open `updateNowPlaying`. */
  function Themed(v: View, p: Snapshot, art: Artwork): View {
    ApplyThemeOptions(ApplyTheme(v, p.theme, art), p.themeOptions)
  }

  /** The theme steps settle the theme and the options and leave the track display alone. */
  lemma ThemedEffect(v: View, p: Snapshot, art: Artwork)
    ensures var r := Themed(v, p, art);
      && r == v.(theme := r.theme, stylesheet := r.stylesheet, themeOptions := r.themeOptions,
                 cssVars := r.cssVars, tinted := r.tinted)
      && r.theme == DesiredTheme(p.theme)
      && r.themeOptions == NormalizeThemeOptions(p.themeOptions)
      && (ViewInvariant(v) ==> ViewInvariant(r))
      && (v.theme == DesiredTheme(p.theme) && v.themeOptions == NormalizeThemeOptions(p.themeOptions) ==> r == v)
  {
    ApplyThemeSettlesOnDesired(v, DesiredTheme(p.theme), art);
    var themed := ApplyTheme(v, p.theme, art);
    if ViewInvariant(v) {
      ApplyThemeOptionsChangesOnlyOnDifference(themed, p.themeOptions);
    }
  }

  /** The signature test of `updateNowPlaying`: a present, non-empty signature that differs from the stored one. */
  predicate ShouldAnimate(next: Option<string>, current: Option<string>) {
    next.Some? && next.value != "" && next != current
  }

  /** `updateNowPlaying`: theme, theme options, then either the placeholder or the track with its transition. */
  function UpdateNowPlaying(v: View, p: Snapshot, art: Artwork): (r: View)
    ensures r.signature == if p.playing then TrackSignature(p.track) else None
    ensures v.transitions <= r.transitions <= v.transitions + 1
  {
    var themed := Themed(v, p, art);
    ThemedEffect(v, p, art);
    if !p.playing then
      WrapAllEffect(themed.(signature := None), NoTrackTitle, "", "");
      ClearTrackDisplay(themed)
    else
      UpdateTrackDisplayEffect(themed, p, art);
      var next := TrackSignature(p.track);
      var shown := UpdateTrackDisplay(themed, p, art);
      var animated := if ShouldAnimate(next, themed.signature) then TriggerTrackTransition(shown) else shown;
      animated.(signature := next)
  }

  /**
   * A snapshot that is not playing shows the placeholder, forgets the signature, hides the
   * cover, clears the tint and plays no transition, whatever was shown before.
   */
  lemma NotPlayingClearsDisplay(v: View, p: Snapshot, art: Artwork)
    requires !p.playing
    ensures var r := UpdateNowPlaying(v, p, art);
      && r.signature.None?
      && r.lines[Title].text == NoTrackTitle && r.lines[Artist].text == "" && r.lines[Album].text == ""
      && r.coverHidden && r.coverSrc == "" && !r.tinted
      && r.transitions == v.transitions
  {
    var themed := Themed(v, p, art);
    ThemedEffect(v, p, art);
    WrapAllEffect(themed.(signature := None), NoTrackTitle, "", "");
  }

  /**
   * A playing snapshot plays the transition exactly when its signature is present and differs
   * from the stored one, and then stores it.
   */
  lemma AnimatesExactlyOnNewSignature(v: View, p: Snapshot, art: Artwork)
    requires p.playing
    ensures var r := UpdateNowPlaying(v, p, art);
      && r.signature == TrackSignature(p.track)
      && r.transitions == if TrackSignature(p.track).Some? && TrackSignature(p.track) != v.signature
                          then v.transitions + 1 else v.transitions
  {
    var themed := Themed(v, p, art);
    ThemedEffect(v, p, art);
    UpdateTrackDisplayEffect(themed, p, art);
    if p.track.Some? {
      TrackSignatureIdentifiesTrack(p.track.value, p.track.value);
    }
  }

  /**
   * Every element ends up with the snapshot's text. An element keeps its marquee exactly
   * when its text is unchanged, and otherwise has none: an update never creates, advances
   * or alters a marquee, it only tears down.
   */
  lemma UpdateOnlyTearsDownMarquees(v: View, p: Snapshot, art: Artwork)
    ensures var r := UpdateNowPlaying(v, p, art);
      forall e :: && e in r.lines
                  && r.lines[e].text == DisplayedText(p, e)
                  && r.lines[e].marquee ==
                       if e in v.lines && v.lines[e].text == DisplayedText(p, e) then v.lines[e].marquee else None
  {
    var themed := Themed(v, p, art);
    ThemedEffect(v, p, art);
    if p.playing {
      UpdateTrackDisplayEffect(themed, p, art);
      WrapAllEffect(themed, TitleText(p), ArtistText(p), AlbumText(p));
    } else {
      WrapAllEffect(themed.(signature := None), NoTrackTitle, "", "");
    }
  }

  /** Applying a snapshot keeps the display invariant. */
  lemma UpdatePreservesInvariant(v: View, p: Snapshot, art: Artwork)
    requires ViewInvariant(v)
    ensures ViewInvariant(UpdateNowPlaying(v, p, art))
  {
    var themed := Themed(v, p, art);
    ThemedEffect(v, p, art);
    UpdateOnlyTearsDownMarquees(v, p, art);
    if p.playing {
      UpdateTrackDisplayEffect(themed, p, art);
    }
  }

  /** Wrapping every element with the text it already shows changes nothing. */
  lemma WrapAllSettled(v: View, title: string, artist: string, album: string)
    requires forall e :: e in v.lines && v.lines[e].text == Pick(e, title, artist, album)
    ensures WrapAll(v, title, artist, album) == v
  {
    WrapAllEffect(v, title, artist, album);
    var r := WrapAll(v, title, artist, album);
    assert r.lines == v.lines;
  }

  /** A view already showing a playing snapshot is a fixed point of showing it again. */
  lemma PlayingSettled(once: View, p: Snapshot, art: Artwork)
    requires p.playing
    requires once.theme == DesiredTheme(p.theme) && once.themeOptions == NormalizeThemeOptions(p.themeOptions)
    requires forall e :: e in once.lines && once.lines[e].text == DisplayedText(p, e)
    requires once.coverHidden == !Truthy(CoverUrl(p))
    requires once.coverSrc == (if Truthy(CoverUrl(p)) then CoverUrl(p).value else "")
    requires once.coverHidden ==> !once.tinted
    requires once.theme == FancyTheme && art.ready && !once.coverHidden ==> once.tinted == art.sampled
    requires once.signature == TrackSignature(p.track)
    ensures UpdateNowPlaying(once, p, art) == once
  {
    ThemedEffect(once, p, art);
    WrapAllSettled(once, TitleText(p), ArtistText(p), AlbumText(p));
  }

  /** A view already showing a stopped snapshot is a fixed point of showing it again. */
  lemma StoppedSettled(once: View, p: Snapshot, art: Artwork)
    requires !p.playing
    requires once.theme == DesiredTheme(p.theme) && once.themeOptions == NormalizeThemeOptions(p.themeOptions)
    requires forall e :: e in once.lines && once.lines[e].text == DisplayedText(p, e)
    requires once.coverHidden && once.coverSrc == "" && !once.tinted && once.signature.None?
    ensures UpdateNowPlaying(once, p, art) == once
  {
    ThemedEffect(once, p, art);
    WrapAllSettled(once, NoTrackTitle, "", "");
  }

  /** Applying the same snapshot twice plays the transition at most once, and never on the repeat. */
  lemma DuplicateSnapshotAnimatesOnce(v: View, p: Snapshot, art: Artwork)
    ensures var once := UpdateNowPlaying(v, p, art);
      && UpdateNowPlaying(once, p, art).transitions == once.transitions
      && once.transitions <= v.transitions + 1
  {
    UpdateNowPlayingIdempotent(v, p, art);
    if p.playing {
      AnimatesExactlyOnNewSignature(v, p, art);
    } else {
      NotPlayingClearsDisplay(v, p, art);
    }
  }

  /**
   * Applying the same snapshot twice is the same as applying it once: the second time
   * changes no theme, keeps every marquee and plays no transition.
   */
  lemma UpdateNowPlayingIdempotent(v: View, p: Snapshot, art: Artwork)
    ensures UpdateNowPlaying(UpdateNowPlaying(v, p, art), p, art) == UpdateNowPlaying(v, p, art)
  {
    var once := UpdateNowPlaying(v, p, art);
    var themed := Themed(v, p, art);
    ThemedEffect(v, p, art);
    UpdateOnlyTearsDownMarquees(v, p, art);
    if p.playing {
      UpdateTrackDisplayEffect(themed, p, art);
      AnimatesExactlyOnNewSignature(v, p, art);
      PlayingSettled(once, p, art);
    } else {
      NotPlayingClearsDisplay(v, p, art);
      StoppedSettled(once, p, art);
    }
  }

  /**
   * The stylesheet's and the cover's listeners keep the display invariant: a tint is only
   * ever set under a visible cover.
   */
  lemma ListenersPreserveInvariant(v: View, sampled: bool)
    requires ViewInvariant(v)
    ensures ViewInvariant(OnThemeLoadError(v))
    ensures ViewInvariant(ApplyFancyDynamicPalette(v, sampled))
    ensures ViewInvariant(ClearFancyDynamicStyling(v))
  {
  }

  /** The page before any snapshot: the module-level defaults, then `clearTrackDisplay()`. */
  function InitialView(): (r: View)
    ensures ViewInvariant(r)
    ensures r.theme == DefaultTheme && r.signature.None? && r.coverHidden && r.transitions == 0
    ensures forall e :: e in r.lines && r.lines[e] == Line(Pick(e, NoTrackTitle, "", ""), None)
  {
    var loaded := View(DefaultTheme, ThemeHref(DefaultTheme), ResolvedThemeOptions(ShadowNone), map[], None,
                       map[], "", false, false, 0);
    WrapAllEffect(loaded.(signature := None), NoTrackTitle, "", "");
    ClearTrackDisplay(loaded)
  }
}
