/**
 * The page script public/app.js as an object: its module-level `let`s and the state of the
 * elements it writes are fields, its functions and listeners are methods, and each method
 * is proved to change the state exactly as the matching function of DisplayModel or
 * Polling says.
 */
module OverlayApp {
  import opened Wrappers
  import opened Types
  import opened Http
  import opened Marquee
  import opened DisplayModel
  import opened Polling

  class Overlay {
    /** `userSlug`, read from the page path once. */
    const userSlug: Option<string>
    var currentTheme: string
    /** The `href` of the theme stylesheet link. */
    var themeHref: string
    var currentThemeOptions: ResolvedThemeOptions
    /** The custom properties set on the body's style. */
    var bodyCssVars: map<string, string>
    var currentTrackSignature: Option<string>
    /** The spans of the text elements together with `textScrollAnimations`. */
    var lines: map<ElementId, Line>
    var coverSrc: string
    var coverHidden: bool
    /** Whether `--overlay-background-dynamic` is set. */
    var dynamicTint: bool
    var transitionsPlayed: nat
    /** `refreshHandle` while its timer is pending, with its delay. */
    var refreshHandle: Option<int>
    /** A `fetchNowPlaying` call is awaiting its answer. */
    var fetchInFlight: bool

    function Display(): View
      reads this
    {
      View(currentTheme, themeHref, currentThemeOptions, bodyCssVars, currentTrackSignature,
           lines, coverSrc, coverHidden, dynamicTint, transitionsPlayed)
    }

    function PollState(): Poll
      reads this
    {
      Poll(refreshHandle, fetchInFlight)
    }

    function State(): Client
      reads this
    {
      Client(Display(), PollState())
    }

    ghost predicate Valid()
      reads this
    {
      ClientValid(userSlug, State())
    }

    /** The script's top level: the defaults, then `clearTrackDisplay()` and `fetchNowPlaying()`. */
    constructor (slug: Option<string>)
      ensures userSlug == slug
      ensures State() == InitialClient(slug)
      ensures Valid()
    {
      userSlug := slug;
      currentTheme := DefaultTheme;
      themeHref := ThemeHref(DefaultTheme);
      currentThemeOptions := ResolvedThemeOptions(ShadowNone);
      bodyCssVars := map[];
      currentTrackSignature := None;
      lines := map[];
      coverSrc := "";
      coverHidden := false;
      dynamicTint := false;
      transitionsPlayed := 0;
      refreshHandle := None;
      fetchInFlight := false;
      new;
      ClearTrackDisplay();
      FetchNowPlaying();
    }

    // -------------------------------------------------------------------------
    // Themes
    // -------------------------------------------------------------------------

    method ClearFancyDynamicStyling()
      modifies this
      ensures Display() == DisplayModel.ClearFancyDynamicStyling(old(Display()))
      ensures PollState() == old(PollState())
    {
      dynamicTint := false;
    }

    method ApplyFancyDynamicPalette(sampled: bool)
      modifies this
      ensures Display() == DisplayModel.ApplyFancyDynamicPalette(old(Display()), sampled)
      ensures PollState() == old(PollState())
    {
      if currentTheme != FancyTheme {
        ClearFancyDynamicStyling();
        return;
      }
      if coverHidden {
        ClearFancyDynamicStyling();
        return;
      }
      if !sampled {
        ClearFancyDynamicStyling();
        return;
      }
      dynamicTint := true;
    }

    method ApplyTheme(themeName: Option<string>, art: Artwork)
      modifies this
      ensures Display() == DisplayModel.ApplyTheme(old(Display()), themeName, art)
      ensures PollState() == old(PollState())
    {
      var desired := DesiredTheme(themeName);
      SwitchTheme(desired, art);
    }

    /** The part of `applyTheme` after the desired theme is known. */
    method SwitchTheme(desired: string, art: Artwork)
      modifies this
      ensures Display() == DisplayModel.SwitchTheme(old(Display()), desired, art)
      ensures PollState() == old(PollState())
    {
      if desired == currentTheme {
        return;
      }
      ghost var before := Display();
      currentTheme := desired;
      themeHref := ThemeHref(desired);
      assert Display() == before.(theme := desired, stylesheet := ThemeHref(desired));
      if desired == FancyTheme {
        ApplyFancyDynamicPalette(art.sampled);
      } else {
        ClearFancyDynamicStyling();
      }
    }

    /** The stylesheet link's `error` listener. */
    method OnThemeLoadError()
      requires Valid()
      modifies this
      ensures Display() == DisplayModel.OnThemeLoadError(old(Display()))
      ensures PollState() == old(PollState())
      ensures Valid()
    {
      ListenersPreserveInvariant(Display(), false);
      if currentTheme != DefaultTheme {
        currentTheme := DefaultTheme;
        themeHref := ThemeHref(DefaultTheme);
      }
    }

    /** The cover's `load` listener; `sampled` says whether its colours could be read. */
    method OnCoverLoad(sampled: bool)
      requires Valid()
      modifies this
      ensures Display() == DisplayModel.ApplyFancyDynamicPalette(old(Display()), sampled)
      ensures PollState() == old(PollState())
      ensures Valid()
    {
      ListenersPreserveInvariant(Display(), sampled);
      ApplyFancyDynamicPalette(sampled);
    }

    /** The cover's `error` listener. */
    method OnCoverError()
      requires Valid()
      modifies this
      ensures Display() == DisplayModel.ClearFancyDynamicStyling(old(Display()))
      ensures PollState() == old(PollState())
      ensures Valid()
    {
      ListenersPreserveInvariant(Display(), false);
      ClearFancyDynamicStyling();
    }

    /** `setBodyCssVariable`: an empty value removes the property. */
    method SetBodyCssVariable(name: string, value: string)
      modifies this
      ensures bodyCssVars == if value == "" then old(bodyCssVars) - {name} else old(bodyCssVars)[name := value]
      ensures Display() == old(Display()).(cssVars := bodyCssVars)
      ensures PollState() == old(PollState())
    {
      if value == "" {
        bodyCssVars := bodyCssVars - {name};
      } else {
        bodyCssVars := bodyCssVars[name := value];
      }
    }

    method ApplyThemeOptions(options: Option<ThemeOptions>)
      modifies this
      ensures Display() == DisplayModel.ApplyThemeOptions(old(Display()), options)
      ensures PollState() == old(PollState())
    {
      var next := NormalizeThemeOptions(options);
      if next.shadowStyle == currentThemeOptions.shadowStyle {
        return;
      }
      currentThemeOptions := next;
      match next.shadowStyle {
        case ShadowMacos =>
          SetBodyCssVariable(ShadowVar, MacosShadow);
          SetBodyCssVariable(InsetVar, MacosInset);
        case ShadowNone =>
          SetBodyCssVariable(ShadowVar, "");
          SetBodyCssVariable(InsetVar, "");
          assert bodyCssVars == old(bodyCssVars) - {ShadowVar, InsetVar};
      }
    }

    // -------------------------------------------------------------------------
    // Text and marquee
    // -------------------------------------------------------------------------

    method StopTextAutoScroll(e: ElementId)
      modifies this
      ensures Display() == DisplayModel.StopTextAutoScroll(old(Display()), e)
      ensures PollState() == old(PollState())
    {
      if e !in lines {
        return;
      }
      lines := lines[e := lines[e].(marquee := None)];
    }

    /** Called with the element's span only, hence the requirement that the element holds one. */
    method StartTextAutoScroll(e: ElementId, overflow: int)
      requires e in lines
      modifies this
      ensures Display() == DisplayModel.StartTextAutoScroll(old(Display()), e, overflow)
      ensures PollState() == old(PollState())
    {
      StopTextAutoScroll(e);
      if overflow <= 0 {
        return;
      }
      var state := ScrollState(overflow, 0, 0, true, false, false, false, false);
      lines := lines[e := lines[e].(marquee := Some(state))];
    }

    method WrapScrollableContent(e: ElementId, text: string)
      modifies this
      ensures Display() == DisplayModel.WrapScrollableContent(old(Display()), e, text)
      ensures PollState() == old(PollState())
    {
      if e in lines && lines[e].text == text {
        return;
      }
      StopTextAutoScroll(e);
      lines := lines[e := Line(text, None)];
    }

    /** The frame callback `wrapScrollableContent` requests; `overflow` is the measured overflow in pixels. */
    method EvaluateTextOverflow(e: ElementId, overflow: int)
      requires Valid()
      modifies this
      ensures Display() == DisplayModel.EvaluateTextOverflow(old(Display()), e, overflow)
      ensures PollState() == old(PollState())
      ensures Valid()
    {
      MarqueeHandlersPreserveInvariant(Display(), e, "", overflow, HoldElapsed);
      if e !in lines {
        return;
      }
      if overflow > OverflowThreshold {
        StartTextAutoScroll(e, overflow);
      } else {
        StopTextAutoScroll(e);
      }
    }

    /** One of the marquee's callbacks for element `e` runs. */
    method MarqueeCallback(e: ElementId, ev: Event)
      requires Valid()
      modifies this
      ensures Display() == ScrollCallback(old(Display()), e, ev)
      ensures PollState() == old(PollState())
      ensures Valid()
    {
      MarqueeHandlersPreserveInvariant(Display(), e, "", 0, ev);
      if e !in lines || lines[e].marquee.None? {
        return;
      }
      var state := lines[e].marquee.value;
      match ev {
        case HoldElapsed =>
          if state.holdArmed {
            state := state.(holdArmed := false, frameArmed := true);
          }
        case FrameRendered =>
          if state.frameArmed {
            var offset := state.offset + ScrollSpeed;
            if offset >= Limit(state) {
              state := state.(shift := Limit(state), offset := 0, frameArmed := false,
                              handlerAttached := true, fallbackArmed := true, resetFramePending := true);
            } else {
              state := state.(offset := offset, shift := offset);
            }
          }
        case ResetFrameRendered =>
          if state.resetFramePending {
            state := state.(resetFramePending := false, shift := 0);
          }
        case TransitionEnded =>
          if state.handlerAttached && !state.resetFramePending {
            state := state.(handlerAttached := false, fallbackArmed := false, holdArmed := true);
          }
        case FallbackElapsed =>
          if state.fallbackArmed {
            state := state.(handlerAttached := false, fallbackArmed := false, holdArmed := true);
          }
      }
      lines := lines[e := lines[e].(marquee := Some(state))];
    }

    // -------------------------------------------------------------------------
    // Snapshots
    // -------------------------------------------------------------------------

    method TriggerTrackTransition()
      modifies this
      ensures Display() == DisplayModel.TriggerTrackTransition(old(Display()))
      ensures PollState() == old(PollState())
    {
      transitionsPlayed := transitionsPlayed + 1;
    }

    method ClearTrackDisplay()
      modifies this
      ensures Display() == DisplayModel.ClearTrackDisplay(old(Display()))
      ensures PollState() == old(PollState())
    {
      currentTrackSignature := None;
      WrapScrollableContent(Title, NoTrackTitle);
      WrapScrollableContent(Artist, "");
      WrapScrollableContent(Album, "");
      coverSrc := "";
      coverHidden := true;
      ClearFancyDynamicStyling();
    }

    method UpdateTrackDisplay(p: Snapshot, art: Artwork)
      modifies this
      ensures Display() == DisplayModel.UpdateTrackDisplay(old(Display()), p, art)
      ensures PollState() == old(PollState())
    {
      WrapScrollableContent(Title, TitleText(p));
      WrapScrollableContent(Artist, ArtistText(p));
      WrapScrollableContent(Album, AlbumText(p));
      var url := CoverUrl(p);
      if Truthy(url) {
        coverSrc := url.value;
        coverHidden := false;
        if currentTheme == FancyTheme && art.ready {
          ApplyFancyDynamicPalette(art.sampled);
        }
      } else {
        coverSrc := "";
        coverHidden := true;
        ClearFancyDynamicStyling();
      }
    }

    method UpdateNowPlaying(p: Snapshot, art: Artwork)
      modifies this
      ensures Display() == DisplayModel.UpdateNowPlaying(old(Display()), p, art)
      ensures PollState() == old(PollState())
    {
      ApplyTheme(p.theme, art);
      ApplyThemeOptions(p.themeOptions);
      if !p.playing {
        ClearTrackDisplay();
        return;
      }
      var nextSignature := TrackSignature(p.track);
      var shouldAnimate := ShouldAnimate(nextSignature, currentTrackSignature);
      UpdateTrackDisplay(p, art);
      if shouldAnimate {
        TriggerTrackTransition();
      }
      currentTrackSignature := nextSignature;
    }

    // -------------------------------------------------------------------------
    // Polling
    // -------------------------------------------------------------------------

    method ScheduleNextFetch(delay: int)
      modifies this
      ensures PollState() == Polling.ScheduleNextFetch(old(PollState()), delay)
      ensures Display() == old(Display())
    {
      refreshHandle := Some(delay);
    }

    /** `fetchNowPlaying` up to its `await`. */
    method FetchNowPlaying()
      modifies this
      ensures PollState() == Polling.FetchNowPlaying(old(PollState()), userSlug)
      ensures Display() == old(Display())
    {
      if !Truthy(userSlug) {
        return;
      }
      fetchInFlight := true;
    }

    /** The refresh timer fires. */
    method RefreshTimerFired()
      requires Valid()
      modifies this
      ensures State() == old(State()).(poll := Polling.RefreshTimerFired(old(PollState()), userSlug))
      ensures Valid()
    {
      PollingPreservesValid(userSlug, State(), NetworkFailure(""), Artwork(false, false));
      if refreshHandle.None? {
        return;
      }
      refreshHandle := None;
      FetchNowPlaying();
    }

    /** The rest of `fetchNowPlaying`, once its request settles with `outcome`. */
    method FetchCompleted(outcome: FetchOutcome<Snapshot>, art: Artwork)
      requires Valid()
      modifies this
      ensures State() == Polling.FetchCompleted(old(State()), outcome, art)
      ensures Valid()
    {
      PollingPreservesValid(userSlug, State(), outcome, art);
      if !fetchInFlight {
        return;
      }
      fetchInFlight := false;
      match outcome {
        case Received(response) =>
          if !response.Ok() {
            ScheduleNextFetch(RetryDelayMs);
            return;
          }
          UpdateNowPlaying(response.body, art);
          ScheduleNextFetch(response.body.refreshIntervalMs.GetOr(DefaultRefreshMs));
        case NetworkFailure(_) =>
          ScheduleNextFetch(RetryDelayMs);
      }
    }
  }
}
