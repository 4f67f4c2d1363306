/** The `App` class of src/main.js: the state it keeps between events (the
    stored last lookup, the pending timers, the chart data) and the parts of
    the page its methods write, each event handler as a method.

    The page is a `View` record: one field per element property the methods
    set. Each method names in its `modifies` clause exactly the fields it may
    change and states their new values through the transition functions
    below, whose contracts say what each does. The asynchronous
    `getWeatherByCity(q).then(...).catch(...).finally(...)` is split in two:
    `Search` issues the request (appending `q` to `requests`) and `Settle`
    runs the continuation once the fetch has produced its outcome. */
module WidgetApp {
  import opened Wrappers
  import opened Text
  import opened ApiService
  import opened Widget

  // ----- the search button: `setLoading` -----

  /** The search button, its label text and whether its spinner is hidden. */
  datatype SearchButton = SearchButton(disabled: bool, ariaBusy: string, caption: string, spinnerHidden: bool)

  const SearchCaption := "Search"
  const SearchingCaption := "Searching…"
  const IdleButton := SearchButton(false, "false", SearchCaption, true)

  /** What `setLoading(on)` does to the button at once. Turning loading on
      leaves the spinner as it was: it is revealed later by the timer. */
  function Loading(on: bool, b: SearchButton): (r: SearchButton)
    ensures r.disabled == on && (r.ariaBusy == "true" <==> on)
    ensures r.caption == if on then SearchingCaption else SearchCaption
    ensures on ==> r.spinnerHidden == b.spinnerHidden
    ensures !on ==> r == IdleButton
  {
    if on then b.(disabled := true, ariaBusy := "true", caption := SearchingCaption)
    else IdleButton
  }

  /** Turning loading on twice is turning it on once, and
      `setLoading(false)` restores the same idle button whatever happened in
      between. */
  lemma LoadingStates(b: SearchButton)
    ensures Loading(true, Loading(true, b)) == Loading(true, b)
    ensures Loading(false, Loading(true, b)) == Loading(false, b)
  {
  }

  // ----- the error banner: `showError` / `hideError` -----

  /** The `#searchError` paragraph, created on the first `showError`. */
  datatype Banner = NoBanner | Banner(text: string, shown: bool)

  /** `hideError` on the banner: emptied and hidden, if it exists. */
  function Hidden(b: Banner): (r: Banner)
    ensures r.NoBanner? <==> b.NoBanner?
    ensures r.Banner? ==> r.text == "" && !r.shown
  {
    if b.NoBanner? then NoBanner else Banner("", false)
  }

  /** Hiding twice is hiding once, and a message that `showError` put up
      is cleared. */
  lemma HiddenShowsNothing(b: Banner, msg: string)
    ensures Hidden(Hidden(b)) == Hidden(b)
    ensures Hidden(Banner(msg, true)) == Banner("", false)
  {
  }

  // ----- `toggle` and `fade` -----

  /** The `display` style of the search pane and of the forecast pane. */
  datatype Panes = Panes(search: string, forecast: string)

  const SearchShown := Panes("flex", "none")
  const ForecastShown := Panes("none", "flex")

  /** `toggle`: a search pane that is not hidden is hidden and the forecast
      shown; otherwise the other way round. */
  function Toggled(p: Panes): (r: Panes)
    ensures r == SearchShown || r == ForecastShown
    ensures r == ForecastShown <==> p.search != "none"
  {
    if p.search != "none" then ForecastShown else SearchShown
  }

  /** Once exactly one pane is shown, each toggle swaps them and two
      toggles restore the panes. */
  lemma ToggleSwaps(p: Panes)
    requires p == SearchShown || p == ForecastShown
    ensures Toggled(p) != p && Toggled(Toggled(p)) == p
  {
  }

  /** `fade`: an opacity of "0" becomes "1", anything else "0". */
  function Faded(o: string): (r: string)
    ensures r != o
    ensures r == "0" || r == "1"
    ensures r == "1" <==> o == "0"
  {
    if o == "0" then "1" else "0"
  }

  /** Two fades restore an opacity that was "0" or "1". */
  lemma FadeFlips(o: string)
    requires o == "0" || o == "1"
    ensures Faded(Faded(o)) == o
  {
  }

  // ----- the stored slot: `setLast` / `paintLastChip` -----

  /** The "last lookup" chip: hidden flag and text. */
  datatype Chip = Chip(hidden: bool, text: string)

  /** `paintLastChip`: the chip shows the stored label when the slot has both
      a label and a query; otherwise it is hidden and keeps its old text. */
  function PaintChip(last: Option<LastQuery>, c: Chip): (r: Chip)
    ensures r.hidden <==> !(last.Some? && last.value.caption != "" && last.value.q != "")
    ensures !r.hidden ==> r.text == last.value.caption
    ensures r.hidden ==> r.text == c.text
  {
    if last.Some? && last.value.caption != "" && last.value.q != "" then Chip(false, last.value.caption)
    else c.(hidden := true)
  }

  /** `setLast(label, q)` on the slot. */
  function SetSlot(fixed3: string -> string, last: Option<LastQuery>, caption: string, q: string): (r: Option<LastQuery>)
    ensures r != last ==> caption != "" && q != ""
    ensures caption != "" && q != "" ==> r == Some(LastQuery(caption, NormCoords(fixed3, q)))
  {
    if caption != "" && q != "" then Some(LastQuery(caption, NormCoords(fixed3, q))) else last
  }

  /** `setLast` keeps the slot well formed (empty, or both fields non-empty),
      and a slot it has filled shows its label on the chip. */
  lemma SetSlotKeepsWellFormed(fixed3: string -> string, last: Option<LastQuery>, caption: string, q: string, c: Chip)
    requires SlotWellFormed(last)
    ensures SlotWellFormed(SetSlot(fixed3, last, caption, q))
    ensures caption != "" && q != "" ==> PaintChip(SetSlot(fixed3, last, caption, q), c) == Chip(false, caption)
  {
    if caption != "" && q != "" {
      assert NormCoords(fixed3, q) != "";
    }
  }

  // ----- the queries the app builds from coordinates -----

  /** `normCoords(\`${lat},${lon}\`)`, with `numText` rendering a number. */
  function CoordsQuery(fixed3: string -> string, numText: real -> string, lat: real, lon: real): string {
    NormCoords(fixed3, numText(lat) + "," + numText(lon))
  }

  /** A normalised pair of sides still has a comma, at a known index. */
  lemma CommaSurvives(fixed3: string -> string, x: string, y: string) returns (k: nat)
    ensures k < |NormCoords(fixed3, x + "," + y)| && NormCoords(fixed3, x + "," + y)[k] == ','
  {
    var q := x + "," + y;
    if IsCoords(q) {
      var p := Split(q, ',');
      k := |fixed3(p[0])|;
      assert (fixed3(p[0]) + "," + fixed3(p[1]))[k] == ',';
    } else {
      k := |x|;
      assert q[k] == ',';
    }
  }

  /** A text with a character other than whitespace does not trim to "". */
  lemma NotBlank(s: string, k: nat)
    requires k < |s| && !IsSpace(s[k])
    ensures Trim(s) != ""
  {
    TrimRemovesSpace(s);
  }

  /** A query built from coordinates is never blank. */
  lemma CoordsQueryNotBlank(fixed3: string -> string, numText: real -> string, lat: real, lon: real)
    ensures Trim(CoordsQuery(fixed3, numText, lat, lon)) != ""
  {
    var k := CommaSurvives(fixed3, numText(lat), numText(lon));
    NotBlank(CoordsQuery(fixed3, numText, lat, lon), k);
  }

  /** So, handed to `search` as an override, it always wins over the typed
      "My location". */
  lemma CoordsQueryIsOverride(fixed3: string -> string, numText: real -> string, lat: real, lon: real, raw: string, last: Option<LastQuery>)
    ensures var q := CoordsQuery(fixed3, numText, lat, lon);
      OverrideGiven(Some(q)) && Resolve(raw, Some(q), last) == Resolved(Trim(q))
  {
    var q := CoordsQuery(fixed3, numText, lat, lon);
    CoordsQueryNotBlank(fixed3, numText, lat, lon);
    OverrideWins(raw, q, last);
  }

  /** Once a record has a title, `setLast` fills the slot from it: the
      query built from its coordinates is never empty, and what is stored is
      that query normalised again (by `search`, then by `setLast`). */
  lemma RecordFillsSlot(fixed3: string -> string, numText: real -> string, last: Option<LastQuery>, w: Weather)
    requires w.title != ""
    ensures var exact := CoordsQuery(fixed3, numText, w.lat, w.lon);
      exact != "" && SetSlot(fixed3, last, w.title, exact) == Some(LastQuery(w.title, NormCoords(fixed3, exact)))
  {
    var k := CommaSurvives(fixed3, numText(w.lat), numText(w.lon));
  }

  /** So a successful lookup always fills the slot: its title is never
      empty. */
  lemma SuccessFillsSlot(q: string, fetched: Fetched, fixed3: string -> string, numText: real -> string, last: Option<LastQuery>)
    requires GetWeatherByCity(q, fetched).Success?
    ensures var w := GetWeatherByCity(q, fetched).value;
      var exact := CoordsQuery(fixed3, numText, w.lat, w.lon);
      w.title != "" && SetSlot(fixed3, last, w.title, exact) == Some(LastQuery(w.title, NormCoords(fixed3, exact)))
  {
    var w := GetWeatherByCity(q, fetched).value;
    assert |w.title| >= 2;
    RecordFillsSlot(fixed3, numText, last, w);
  }

  // ----- the page -----

  /** The "use my location" button. */
  datatype Locator = Locator(disabled: bool, text: string)

  const LocatingCaption := "Locating…"
  const MyLocationText := "My location"
  const NoGeolocation := "Geolocation is not supported by your browser."

  /** The element properties the app writes: the search box's value and
      border colour, the error banner, the search button, the two panes'
      display, the main container's opacity, the last-lookup chip, the
      locate button and the texts of the forecast pane. */
  datatype View = View(
    input: string, border: string, banner: Banner, button: SearchButton, panes: Panes,
    opacity: string, chip: Chip, locator: Locator, screen: Option<Screen>)

  /** What `search` does to the page once its if/else chain has produced
      `r`. */
  function AfterSearch(v: View, r: Resolution): (w: View)
    ensures r.Rejected? ==> w == v.(banner := Banner(r.message, true))
    ensures r.Resolved? ==>
              w.button.disabled && w.button.caption == SearchingCaption
              && !(w.banner.Banner? && w.banner.shown) && w.border == "black" && w.opacity != v.opacity
              && w.input == v.input && w.panes == v.panes && w.chip == v.chip && w.screen == v.screen
              && w.locator == v.locator
    ensures r.Resolved? ==>
              w.button == Loading(true, v.button) && w.banner == Hidden(v.banner) && w.opacity == Faded(v.opacity)
  {
    match r
    case Rejected(m) => v.(banner := Banner(m, true))
    case Resolved(_) =>
      v.(banner := Hidden(v.banner), border := "black", button := Loading(true, v.button),
         opacity := Faded(v.opacity))
  }

  /** The requests `search` issues for the outcome `r`. */
  function Issued(r: Resolution): (qs: seq<string>)
    ensures qs == [] <==> r.Rejected?
    ensures r.Resolved? ==> qs == [r.q]
  {
    if r.Resolved? then [r.q] else []
  }

  class App {
    /** `Number(n).toFixed(3)`, the text of a number, and `Math.round`. */
    const fixed3: string -> string
    const numText: real -> string
    const round: real -> int
    /** Whether the browser offers `navigator.geolocation`. */
    const geolocation: bool

    /** `this.last`, and what the storage slot holds. */
    var last: Option<LastQuery>
    var saved: Option<LastQuery>
    var view: View
    /** The spinner timer of `setLoading(true)` is pending. */
    var spinnerTimer: bool
    /** The queries handed to `getWeatherByCity`, in order. */
    var requests: seq<string>
    /** While a position is awaited: the locate button's text to restore. */
    var locating: Option<string>
    /** The number of `back` timers not yet fired. */
    var backTimers: nat
    /** `this.charts`: the series the charts were last built from. */
    var charts: Option<Series>

    /** The constructor and `init`: the slot is loaded from storage (None
        when absent or unreadable) and painted onto the chip. */
    constructor (fixed3: string -> string, numText: real -> string, round: real -> int,
                 geolocation: bool, stored: Option<LastQuery>, page: View)
      ensures this.fixed3 == fixed3 && this.numText == numText && this.round == round
      ensures this.geolocation == geolocation
      ensures last == stored && saved == stored
      ensures view == page.(chip := PaintChip(stored, page.chip))
      ensures !spinnerTimer && requests == [] && locating.None? && backTimers == 0 && charts.None?
    {
      this.fixed3, this.numText, this.round, this.geolocation := fixed3, numText, round, geolocation;
      last, saved := stored, stored;
      view := page.(chip := PaintChip(stored, page.chip));
      spinnerTimer, requests, locating, backTimers, charts := false, [], None, 0, None;
    }

    /** `paintLastChip`. */
    method PaintLastChip()
      modifies this`view
      ensures view == old(view).(chip := PaintChip(last, old(view.chip)))
    {
      view := view.(chip := PaintChip(last, view.chip));
    }

    /** `setLast`: with both arguments non-empty, the slot is set, saved and
        painted; otherwise nothing changes. */
    method SetLast(caption: string, q: string)
      modifies this`last, this`saved, this`view
      ensures last == SetSlot(fixed3, old(last), caption, q)
      ensures caption != "" && q != "" ==>
                saved == last && view == old(view).(chip := Chip(false, caption))
      ensures !(caption != "" && q != "") ==> saved == old(saved) && view == old(view)
    {
      if caption != "" && q != "" {
        var slot := LastQuery(caption, NormCoords(fixed3, q));
        assert slot.q != "";
        last := Some(slot);
        saved := last;
        PaintLastChip();
      }
    }

    /** `showError`. */
    method ShowError(msg: string)
      modifies this`view
      ensures view == old(view).(banner := Banner(msg, true))
    {
      view := view.(banner := Banner(msg, true));
    }

    /** `hideError`, also the handler of the search box's `input` event. */
    method HideError()
      modifies this`view
      ensures view == old(view).(banner := Hidden(old(view.banner)), border := "black")
    {
      view := view.(banner := Hidden(view.banner), border := "black");
    }

    /** The user edits the search box. */
    method TypeText(text: string)
      modifies this`view
      ensures view == old(view).(input := text, banner := Hidden(old(view.banner)), border := "black")
    {
      view := view.(input := text);
      HideError();
    }

    /** `setLoading(on)`: the old spinner timer is cleared, and a new one set
        when loading starts. */
    method SetLoading(on: bool)
      modifies this`view, this`spinnerTimer
      ensures view == old(view).(button := Loading(on, old(view.button)))
      ensures spinnerTimer == on
    {
      view := view.(button := Loading(on, view.button));
      spinnerTimer := on;
    }

    /** The spinner timer fires: the spinner is revealed. */
    method SpinnerFires()
      requires spinnerTimer
      modifies this`view, this`spinnerTimer
      ensures view == old(view).(button := old(view.button).(spinnerHidden := false))
      ensures !spinnerTimer
    {
      view := view.(button := view.button.(spinnerHidden := false));
      spinnerTimer := false;
    }

    /** `fade`. */
    method Fade()
      modifies this`view
      ensures view == old(view).(opacity := Faded(old(view.opacity)))
    {
      view := view.(opacity := Faded(view.opacity));
    }

    /** `toggle`. */
    method Toggle()
      modifies this`view
      ensures view == old(view).(panes := Toggled(old(view.panes)))
    {
      view := view.(panes := Toggled(view.panes));
    }

    /** `search(qOverride)` up to the request, for the outcome `r` of its
        if/else chain (see `AfterSearch`). */
    method Search(qOverride: Option<string>)
      modifies this`view, this`spinnerTimer, this`requests
      ensures var r := Resolve(old(view.input), qOverride, last);
        view == AfterSearch(old(view), r) && requests == old(requests) + Issued(r)
        && spinnerTimer == (r.Resolved? || old(spinnerTimer))
    {
      var r := Resolve(view.input, qOverride, last);
      Proceed(r);
    }

    /** The rest of `search` once the if/else chain has produced `r`. */
    method Proceed(r: Resolution)
      modifies this`view, this`spinnerTimer, this`requests
      ensures view == AfterSearch(old(view), r) && requests == old(requests) + Issued(r)
      ensures spinnerTimer == (r.Resolved? || old(spinnerTimer))
    {
      match r {
        case Rejected(m) =>
          ShowError(m);
        case Resolved(q) =>
          HideError();
          SetLoading(true);
          Fade();
          requests := requests + [q];
      }
    }

    /** `render`: the forecast pane is swapped in and faded, its texts are
        written, and the charts are rebuilt unless the hour list is empty. */
    method Render(w: Weather)
      modifies this`view, this`charts
      ensures view == old(view).(panes := Toggled(old(view.panes)), opacity := Faded(old(view.opacity)),
                                 screen := Some(RenderScreen(w, round, numText)))
      ensures charts == if w.hourly == [] then old(charts) else ChartsFrom(w.hourly, round)
    {
      Toggle();
      Fade();
      view := view.(screen := Some(RenderScreen(w, round, numText)));
      var s := ChartsFrom(w.hourly, round);
      if s.Some? {
        charts := s;
      }
    }

    /** The continuation of `search` once the request for `q` has completed
        with `fetched`. On success the weather is rendered and its own
        coordinates become the stored query under its title; on failure the
        pane fades back, the box turns red and the message for the error is
        shown, the slot untouched. Either way loading ends. */
    method Settle(q: string, fetched: Fetched)
      modifies this`view, this`spinnerTimer, this`last, this`saved, this`charts
      ensures !spinnerTimer && view.button == IdleButton
      ensures var r := GetWeatherByCity(q, fetched);
        r.Success? ==>
          var w := r.value;
          last == Some(LastQuery(w.title, NormCoords(fixed3, CoordsQuery(fixed3, numText, w.lat, w.lon))))
          && saved == last
          && view == old(view).(panes := Toggled(old(view.panes)), opacity := Faded(old(view.opacity)),
                                screen := Some(RenderScreen(w, round, numText)),
                                chip := Chip(false, w.title), button := IdleButton)
          && charts == if w.hourly == [] then old(charts) else ChartsFrom(w.hourly, round)
      ensures var r := GetWeatherByCity(q, fetched);
        r.Failure? ==>
          last == old(last) && saved == old(saved) && charts == old(charts)
          && view == old(view).(opacity := Faded(old(view.opacity)), border := "red",
                                banner := Banner(Msg(r.error), true), button := IdleButton)
    {
      var r := GetWeatherByCity(q, fetched);
      if r.Success? {
        SuccessFillsSlot(q, fetched, fixed3, numText, last);
      }
      Continue(r);
    }

    /** The `then`, `catch` and `finally` of `search` for the outcome `r`
        of `getWeatherByCity`, whose records always carry a title. */
    method Continue(r: Result<Weather, Failure>)
      requires r.Success? ==> r.value.title != ""
      modifies this`view, this`spinnerTimer, this`last, this`saved, this`charts
      ensures !spinnerTimer && view.button == IdleButton
      ensures r.Success? ==>
          var w := r.value;
          last == Some(LastQuery(w.title, NormCoords(fixed3, CoordsQuery(fixed3, numText, w.lat, w.lon))))
          && saved == last
          && view == old(view).(panes := Toggled(old(view.panes)), opacity := Faded(old(view.opacity)),
                                screen := Some(RenderScreen(w, round, numText)),
                                chip := Chip(false, w.title), button := IdleButton)
          && charts == if w.hourly == [] then old(charts) else ChartsFrom(w.hourly, round)
      ensures r.Failure? ==>
          last == old(last) && saved == old(saved) && charts == old(charts)
          && view == old(view).(opacity := Faded(old(view.opacity)), border := "red",
                                banner := Banner(Msg(r.error), true), button := IdleButton)
    {
      match r {
        case Success(w) =>
          Succeed(w);
        case Failure(e) =>
          Fail(e);
      }
      SetLoading(false);
    }

    /** The `then` of `search`: render, then remember the record's own
        coordinates under its title. */
    method Succeed(w: Weather)
      requires w.title != ""
      modifies this`view, this`last, this`saved, this`charts
      ensures last == Some(LastQuery(w.title, NormCoords(fixed3, CoordsQuery(fixed3, numText, w.lat, w.lon))))
      ensures saved == last
      ensures view == old(view).(panes := Toggled(old(view.panes)), opacity := Faded(old(view.opacity)),
                                 screen := Some(RenderScreen(w, round, numText)), chip := Chip(false, w.title))
      ensures charts == if w.hourly == [] then old(charts) else ChartsFrom(w.hourly, round)
    {
      Render(w);
      Remember(w);
    }

    /** `setLast(data.title, normCoords(\`${data.lat},${data.lon}\`))`. */
    method Remember(w: Weather)
      requires w.title != ""
      modifies this`last, this`saved, this`view
      ensures last == Some(LastQuery(w.title, NormCoords(fixed3, CoordsQuery(fixed3, numText, w.lat, w.lon))))
      ensures saved == last && view == old(view).(chip := Chip(false, w.title))
    {
      var exact := CoordsQuery(fixed3, numText, w.lat, w.lon);
      RecordFillsSlot(fixed3, numText, last, w);
      SetLast(w.title, exact);
    }

    /** The `catch` of `search`. */
    method Fail(e: Failure)
      modifies this`view
      ensures view == old(view).(opacity := Faded(old(view.opacity)), border := "red",
                                 banner := Banner(Msg(e), true))
    {
      Fade();
      view := view.(border := "red");
      ShowError(Msg(e));
    }

    /** A click on the chip: with a stored query, the label is put in the
        box and the stored query searched; otherwise nothing happens. */
    method ChipClicked()
      modifies this`view, this`spinnerTimer, this`requests
      ensures !HasQ(last) ==>
                view == old(view) && requests == old(requests) && spinnerTimer == old(spinnerTimer)
      ensures HasQ(last) ==>
                var r := Resolve(last.value.caption, Some(last.value.q), last);
                view == AfterSearch(old(view).(input := last.value.caption), r)
                && requests == old(requests) + Issued(r)
                && spinnerTimer == (r.Resolved? || old(spinnerTimer))
    {
      if HasQ(last) {
        view := view.(input := last.value.caption);
        Search(Some(last.value.q));
      }
    }

    /** `useLocation` up to the position request: without geolocation only
        the message is shown; otherwise the locate button is disabled and
        its text saved and replaced. */
    method UseLocation()
      modifies this`view, this`locating
      ensures !geolocation ==>
                view == old(view).(banner := Banner(NoGeolocation, true)) && locating == old(locating)
      ensures geolocation ==>
                locating == Some(old(view.locator.text))
                && view == old(view).(locator := Locator(true, LocatingCaption))
    {
      if !geolocation {
        ShowError(NoGeolocation);
      } else {
        locating := Some(view.locator.text);
        view := view.(locator := Locator(true, LocatingCaption));
      }
    }

    /** The position arrives: "My location" is put in the box, the
        coordinates are searched, and the locate button is restored. */
    method LocationFound(lat: real, lon: real)
      requires locating.Some?
      modifies this`view, this`locating, this`spinnerTimer, this`requests
      ensures var q := CoordsQuery(fixed3, numText, lat, lon);
        requests == old(requests) + [Trim(q)] && spinnerTimer && locating.None?
        && view == AfterSearch(old(view).(input := MyLocationText), Resolved(Trim(q)))
                     .(locator := Locator(false, old(locating).value))
    {
      var q := CoordsQuery(fixed3, numText, lat, lon);
      CoordsQueryNotBlank(fixed3, numText, lat, lon);
      FillAndSearch(MyLocationText, q);
      Done();
    }

    /** `searchInput.value = text; this.search(q)` for a non-blank `q`,
        which wins over the text. */
    method FillAndSearch(text: string, q: string)
      requires Trim(q) != ""
      modifies this`view, this`spinnerTimer, this`requests
      ensures view == AfterSearch(old(view).(input := text), Resolved(Trim(q)))
      ensures requests == old(requests) + [Trim(q)] && spinnerTimer
    {
      view := view.(input := text);
      OverrideWins(text, q, last);
      Search(Some(q));
    }

    /** The position request fails with `err?.code`: its message is shown
        and the locate button is restored. */
    method LocationFailed(code: Option<int>)
      requires locating.Some?
      modifies this`view, this`locating
      ensures locating.None?
      ensures view == old(view).(banner := Banner(GeoMessage(code), true),
                                 locator := Locator(false, old(locating).value))
    {
      ShowError(GeoMessage(code));
      Done();
    }

    /** `done`: the locate button is enabled and its text restored. */
    method Done()
      requires locating.Some?
      modifies this`view, this`locating
      ensures locating.None?
      ensures view == old(view).(locator := Locator(false, old(locating).value))
    {
      view := view.(locator := Locator(false, locating.value));
      locating := None;
    }

    /** `back`: the container fades and a timer is set. */
    method Back()
      modifies this`view, this`backTimers
      ensures view == old(view).(opacity := Faded(old(view.opacity)))
      ensures backTimers == old(backTimers) + 1
    {
      Fade();
      backTimers := backTimers + 1;
    }

    /** A `back` timer fires: the panes swap, the box is emptied, the error
        hidden and the container faded again. */
    method BackFires()
      requires backTimers > 0
      modifies this`view, this`backTimers
      ensures view == old(view).(panes := Toggled(old(view.panes)), input := "",
                                 banner := Hidden(old(view.banner)), border := "black",
                                 opacity := Faded(old(view.opacity)))
      ensures backTimers == old(backTimers) - 1
    {
      Toggle();
      view := view.(input := "");
      HideError();
      Fade();
      backTimers := backTimers - 1;
    }
  }
}
