/** The route selection kept in the map page's closure: `selectedRouteId`,
    the filter of the `ruta-highlight` layer, the popup `routePopup`, and the
    region the camera was last fitted to. `deselectRoute`,
    `selectRouteByFeature`, the route-layer click toggle, the empty-map
    click, the window Escape key and `fitAndSelect` are the operations that
    change it. */
module Selection {
  import opened Wrappers
  import opened Js
  import opened Routes

  /** The filter value that matches no route: `["==", ..., "__none__"]`. */
  const NoneFilter: string := "__none__"

  /** Where a popup is placed: the clicked point, the centre of a feature's
      region, or the current centre of the map view. */
  datatype Anchor = ClickPoint(at: Position) | BoundsCenter(region: Bounds) | ViewCenter

  /** An open popup: its place, its heading line and its body line. */
  datatype Popup = Popup(anchor: Anchor, heading: string, body: string)

  /** The selection as the page holds it. `filter` is the right-hand side of
      the highlight layer's `==` filter; `popup` is the popup now open, so it
      is `None` once the popup's own close button has removed it (the page's
      `routePopup` variable still refers to that removed popup, whose later
      `remove()` does nothing); `framed` is the region last passed to
      `fitBounds`. */
  datatype SelectionState = SelectionState(
    selectedId: Option<string>,
    filter: string,
    popup: Option<Popup>,
    framed: Option<Bounds>)

  /** Nothing selected, the highlight filter set to the sentinel, no popup. */
  const Initial: SelectionState := SelectionState(None, NoneFilter, None, None)

  /** `String(f.properties?.id)`: the id string the selection uses. Unlike
      the index's `String(id ?? "")`, a missing id gives "undefined". */
  function IdOf(f: Feature): string
  {
    ToJsString(f.properties.id)
  }

  /** The highlight layer draws `g`: the style-side string of its id equals
      the filter value. */
  predicate Highlights(s: SelectionState, g: Feature)
  {
    ToJsStringOrEmpty(g.properties.id) == s.filter
  }

  const HeadingPrefix: string := "Ruta "
  const NoNameBody: string := "Sin nombre"

  /** The popup of `selectRouteByFeature(f, centerLngLat)`: anchored at the
      given point, else at the centre of the feature's region, else at the
      centre of the view; headed "Ruta" followed by `#` and the route number
      when the number is truthy; its body the route name, or "Sin nombre"
      when the name is falsy. */
  function PopupFor(f: Feature, at: Option<Position>): (p: Popup)
    ensures at.Some? ==> p.anchor == ClickPoint(at.value)
    ensures at.None? && FeatureBounds(f).Some? ==> p.anchor == BoundsCenter(FeatureBounds(f).value)
    ensures at.None? && FeatureBounds(f).None? ==> p.anchor == ViewCenter
    ensures |p.heading| >= |HeadingPrefix| && p.heading[..|HeadingPrefix|] == HeadingPrefix
    ensures p.heading == HeadingPrefix <==> !Truthy(f.properties.numeroRuta)
    ensures p.body != ""
    ensures !Truthy(f.properties.nombreRuta) ==> p.body == NoNameBody
    ensures f.properties.nombreRuta.Str? && Truthy(f.properties.nombreRuta) ==> p.body == f.properties.nombreRuta.s
  {
    var anchor :=
      if at.Some? then ClickPoint(at.value)
      else if FeatureBounds(f).Some? then BoundsCenter(FeatureBounds(f).value)
      else ViewCenter;
    var num := f.properties.numeroRuta;
    var name := f.properties.nombreRuta;
    var heading := HeadingPrefix + (if Truthy(num) then "#" + ToJsString(num) else "");
    var body := if Truthy(name) then ToJsString(name) else NoNameBody;
    Popup(anchor, heading, body)
  }

  /** The selection agrees with itself: the filter shows the selected id, or
      the sentinel when nothing is selected, and a popup is only open while a
      route is selected. */
  predicate Consistent(s: SelectionState)
  {
    && s.filter == (if s.selectedId.Some? then s.selectedId.value else NoneFilter)
    && (s.popup.Some? ==> s.selectedId.Some?)
  }

  // ---------------------------------------------------------------------
  // The transitions, one per handler.
  // ---------------------------------------------------------------------

  /** `deselectRoute()` */
  function Deselected(s: SelectionState): SelectionState
  {
    s.(selectedId := None, filter := NoneFilter, popup := None)
  }

  /** `selectRouteByFeature(f, at)` */
  function Selected(s: SelectionState, f: Feature, at: Option<Position>): SelectionState
  {
    s.(selectedId := Some(IdOf(f)), filter := IdOf(f), popup := Some(PopupFor(f, at)))
  }

  /** A click on the route layer: `hits` are `e.features`, `at` is `e.lngLat`.
      Clicking the selected route deselects it; any other route is selected
      with its popup at the click. */
  function AfterRouteClick(s: SelectionState, hits: seq<Feature>, at: Position): SelectionState
  {
    if hits == [] then s
    else if s.selectedId == Some(IdOf(hits[0])) then Deselected(s)
    else Selected(s, hits[0], Some(at))
  }

  /** A click anywhere on the map, with the number of route features under
      the pointer. */
  function AfterMapClick(s: SelectionState, hitCount: nat): SelectionState
  {
    if hitCount == 0 && s.selectedId.Some? then Deselected(s) else s
  }

  /** The window-level `keydown` handler. */
  function AfterWindowKey(s: SelectionState, key: string): SelectionState
  {
    if key == "Escape" then Deselected(s) else s
  }

  /** `fitAndSelect(feature)`: frame the feature's region when it has one,
      then select it with no click point. */
  function FittedAndSelected(s: SelectionState, f: Feature): SelectionState
  {
    var b := FeatureBounds(f);
    Selected(if b.Some? then s.(framed := b) else s, f, None)
  }

  /** The popup's own close button: the popup goes, the selection stays. */
  function PopupClosed(s: SelectionState): SelectionState
  {
    s.(popup := None)
  }

  // ---------------------------------------------------------------------
  // Properties.
  // ---------------------------------------------------------------------

  /** Every handler keeps the selection consistent, starting from the
      initial state. */
  lemma ConsistentPreserved(s: SelectionState, f: Feature, at: Option<Position>, hits: seq<Feature>,
                            p: Position, hitCount: nat, key: string)
    requires Consistent(s)
    ensures Consistent(Initial)
    ensures Consistent(Deselected(s)) && Consistent(Selected(s, f, at))
    ensures Consistent(AfterRouteClick(s, hits, p)) && Consistent(AfterMapClick(s, hitCount))
    ensures Consistent(AfterWindowKey(s, key)) && Consistent(FittedAndSelected(s, f))
    ensures Consistent(PopupClosed(s))
  {
  }

  /** Deselecting twice is deselecting once; this is why an Escape typed in
      the search box, which reaches both the box's handler and the window's,
      behaves like a single deselection. */
  lemma DeselectIdempotent(s: SelectionState)
    ensures Deselected(Deselected(s)) == Deselected(s)
    ensures Deselected(s).selectedId.None? && Deselected(s).popup.None? && Deselected(s).framed == s.framed
    ensures forall g :: Highlights(Deselected(s), g) <==> ToJsStringOrEmpty(g.properties.id) == NoneFilter
  {
  }

  /** The `selectedRouteId !== null` guard of the empty-map click only saves
      work: on a consistent state an empty click is a deselection, and a
      click with a route under it changes nothing. */
  lemma MapClickIsDeselect(s: SelectionState, hitCount: nat)
    requires Consistent(s)
    ensures AfterMapClick(s, hitCount) == if hitCount == 0 then Deselected(s) else s
  {
    if hitCount == 0 && s.selectedId.None? {
      assert s.filter == NoneFilter && s.popup.None?;
    }
  }

  /** Clicking the same route twice restores the selection it started from
      when that route was selected, and leaves nothing selected otherwise
      (also when another route was selected before). */
  lemma ToggleTwice(s: SelectionState, f: Feature, rest1: seq<Feature>, rest2: seq<Feature>, p: Position, q: Position)
    ensures var s2 := AfterRouteClick(AfterRouteClick(s, [f] + rest1, p), [f] + rest2, q);
      s2.selectedId == if s.selectedId == Some(IdOf(f)) then Some(IdOf(f)) else None
    ensures var s1 := AfterRouteClick(s, [f] + rest1, p);
      s1.selectedId == Some(IdOf(f)) <==> s.selectedId != Some(IdOf(f))
  {
    assert ([f] + rest1)[0] == f;
    assert ([f] + rest2)[0] == f;
  }

  /** A selected route is drawn highlighted exactly when it has an id: with
      a missing or null id the selection holds "undefined" or "null" while
      the layer sees "", so the route gets a popup but no highlight. */
  lemma SelectedHighlightedIff(s: SelectionState, f: Feature, at: Option<Position>)
    ensures Highlights(Selected(s, f, at), f) <==> !IsNullish(f.properties.id)
  {
  }

  /** For a route with a non-empty id, the highlight shows exactly the
      routes whose id string, as the route index writes it
      (`String(id ?? "")`), equals the selected route's. */
  lemma HighlightMatchesIndexId(s: SelectionState, f: Feature, at: Option<Position>, g: Feature)
    requires !IsNullish(f.properties.id) && f.properties.id != Str("")
    ensures Highlights(Selected(s, f, at), g) <==> ToJsStringOrEmpty(g.properties.id) == ToJsStringOrEmpty(f.properties.id)
    ensures IdOf(f) == ToJsStringOrEmpty(f.properties.id) != ""
  {
  }

  /** `fitAndSelect` frames the route's region and opens the popup at its
      centre; a feature without a region leaves the camera alone and opens
      the popup at the view centre. Either way the route is selected. */
  lemma FitAndSelectCentresPopup(s: SelectionState, f: Feature)
    ensures var t := FittedAndSelected(s, f);
      && t.selectedId == Some(IdOf(f)) && t.popup.Some?
      && (FeatureBounds(f).Some? ==> t.framed == FeatureBounds(f) && t.popup.value.anchor == BoundsCenter(t.framed.value))
      && (FeatureBounds(f).None? ==> t.framed == s.framed && t.popup.value.anchor == ViewCenter)
  {
  }

  /** A click on a route that selects it places the popup at the click. */
  lemma RouteClickPopupAtClick(s: SelectionState, hits: seq<Feature>, p: Position)
    requires hits != [] && s.selectedId != Some(IdOf(hits[0]))
    ensures var t := AfterRouteClick(s, hits, p);
      t.popup.Some? && t.popup.value.anchor == ClickPoint(p) && t.framed == s.framed
  {
  }

  // ---------------------------------------------------------------------
  // The closure variables and the handlers that update them.
  // ---------------------------------------------------------------------

  class SelectionController {
    var selectedRouteId: Option<string>
    var highlightFilter: string
    /** The popup now open (see `SelectionState.popup`). */
    var routePopup: Option<Popup>
    var framed: Option<Bounds>

    function Snapshot(): SelectionState
      reads this
    {
      SelectionState(selectedRouteId, highlightFilter, routePopup, framed)
    }

    constructor ()
      ensures Snapshot() == Initial
    {
      selectedRouteId := None;
      highlightFilter := NoneFilter;
      routePopup := None;
      framed := None;
    }

    method DeselectRoute()
      modifies this
      ensures Snapshot() == Deselected(old(Snapshot()))
    {
      selectedRouteId := None;
      highlightFilter := NoneFilter;
      routePopup := None;
    }

    method SelectRouteByFeature(f: Feature, at: Option<Position>)
      modifies this
      ensures Snapshot() == Selected(old(Snapshot()), f, at)
    {
      var idStr := IdOf(f);
      selectedRouteId := Some(idStr);
      highlightFilter := idStr;
      routePopup := Some(PopupFor(f, at));
    }

    method OnRouteClick(hits: seq<Feature>, at: Position)
      modifies this
      ensures Snapshot() == AfterRouteClick(old(Snapshot()), hits, at)
    {
      if hits == [] {
        return;
      }
      var f := hits[0];
      var clickedIdStr := IdOf(f);
      if selectedRouteId == Some(clickedIdStr) {
        DeselectRoute();
        return;
      }
      SelectRouteByFeature(f, Some(at));
    }

    method OnMapClick(hitCount: nat)
      modifies this
      ensures Snapshot() == AfterMapClick(old(Snapshot()), hitCount)
    {
      if hitCount == 0 && selectedRouteId.Some? {
        DeselectRoute();
      }
    }

    method OnWindowKeyDown(key: string)
      modifies this
      ensures Snapshot() == AfterWindowKey(old(Snapshot()), key)
    {
      if key == "Escape" {
        DeselectRoute();
      }
    }

    method FitAndSelect(f: Feature)
      modifies this
      ensures Snapshot() == FittedAndSelected(old(Snapshot()), f)
    {
      var bounds := FeatureBounds(f);
      if bounds.Some? {
        framed := bounds;
      }
      SelectRouteByFeature(f, None);
    }

    method OnPopupClose()
      modifies this
      ensures Snapshot() == PopupClosed(old(Snapshot()))
    {
      routePopup := None;
    }
  }
}
