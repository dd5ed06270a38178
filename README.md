# VayVen route search and selection, in Dafny

This project models the route search-and-selection engine of the VayVen map
viewer (`frontend/public/app.js`). The viewer shows the bus routes of Mérida
and lets the user find one by number or name and highlight it. The model
covers these parts:

- **Normaliser.** `normalizeStr` lower-cases a string, decomposes accented
  letters, strips the combining marks and trims white space. It is modelled
  as a pipeline of string functions: `Lower`, `Nfd`, `StripMarks` and `Trim`.
  The `Js` module gives the pieces of JavaScript semantics it rests on:
  - the white-space set of ECMA-262;
  - `String(v)`;
  - truthiness;
  - UTF-16 length;
  - the StringNumericLiteral grammar behind `!isNaN(Number(s))`.
- **Route index.** `featureBounds` and the `routeIndex` records. Each record
  holds the id, number and name as strings, their normalised tokens, the
  colour with its fallback, and the display label.
- **Matcher.** `matchRoutes` has two scoring channels:
  - a number channel, for numeric queries only, scoring 100, 80 or 60;
  - a name channel, scoring 90, 70 or 50.

  Results are sorted stably by score, then label length, and cut to `limit`.
  `Matches` is the value the function returns. `Matcher.MatchRoutes` is the
  function itself, with its scoring loop (`ScorePass`) and its sort and
  slice (`TopK`). Both are proved to compute `Matches`. The properties are
  proved about `Ranked`:
  - bounds;
  - order;
  - completeness;
  - exact-number-first;
  - the behaviour on typical queries.
- **Selection.** The closure variables `selectedRouteId`, `routePopup` and
  the highlight filter become the class `Selection.SelectionController`.
  Each handler is a method whose new state is a pure transition of the old
  one:
  - `deselectRoute`;
  - `selectRouteByFeature`;
  - the route-layer click toggle;
  - the empty-map click;
  - the window Escape key;
  - `fitAndSelect`.

  Lemmas about the transitions give the toggle, idempotence and highlight
  properties.
- **Search box.** `RouteSearchControl` is the class
  `Search.RouteSearchControl`. Its fields are the input text, whether the
  list is shown, `_matches`, the number of rendered rows and
  `_activeIndex`. Its handlers are methods proved against `Search.Step`,
  which is one transition per DOM event. `Search.StepPreservesWellFormed`
  proves the control's invariant for every event.

The handlers see `matchRoutes` as a function from text to suggestions. The
class carries it as `suggest`, fixed by its constructor to
`Suggestions(index)`. The lemmas about the search box hold for any `suggest`
that gives nothing for the empty text, and `NoSuggestionsForEmptyText`
proves that `matchRoutes` is such a function.

Behaviour of the code that the model keeps as written:

- **The index and the selection write ids differently.** The index uses
  `String(id ?? "")`. The selection uses `String(id)`, which turns a missing
  id into `"undefined"`. The highlight layer compares `to-string` of the
  id, which is `""` for a missing id. A route without an id therefore gets
  a popup but no highlight (`SelectedHighlightedIff`).
- **Unnamed routes are never suggested.** A route with neither number nor
  name gets the label "(sin nombre)". The matcher compares tokens, never
  labels, so such a route is never suggested (`UnnamedRouteNeverMatches`).
- **Two clicks on a route do not always restore the old selection.**
  Clicking a route twice, when another route was selected first, ends with
  nothing selected (`ToggleTwice`).
- **ArrowUp on a hidden list re-renders it**, exactly as ArrowDown does
  (`ArrowKeys`).
- **The Enter fallback keeps the typed text.** With the list hidden, Enter
  commits the best match but leaves the typed text in the box. Enter on a
  shown row puts the route's label there instead
  (`EnterFallbackAgreesWithFirstRow`).
- **Escape reaches two handlers.** An Escape typed in the box runs both the
  box's handler and the window's. The second deselection changes nothing
  (`EscapeReachesWindow`).
- **The `!q` test in `render` never decides anything on its own**, because
  the empty text has no matches (`NoSuggestionsForEmptyText`).
- **Only `render` resets `_activeIndex`.** Hiding the list by blur, Escape,
  a choice or the clear button leaves the old rows and active index in
  place. Arrow keys re-render before using them.

## Model

| member | source | states |
|---|---|---|
| Js.ToJsString | frontend/public/app.js:95 | `String(v)` gives "undefined" for a missing value and "null" for null, gives a string unchanged, and is non-empty for everything but the empty string |
| Js.ToJsStringOrEmpty | frontend/public/app.js:300 | `String(v ?? "")` is empty exactly for a missing value, null and the empty string, and any non-empty result is `String(v)` |
| Js.TrimStartSpaces | frontend/public/app.js:27 | the leading part `trim` removes is all white space, and what remains does not start with white space |
| Js.TrimEndSpaces | frontend/public/app.js:27 | the trailing part `trim` removes is all white space, and what remains does not end with white space |
| Js.TrimInfix | frontend/public/app.js:27 | `s.trim()` is the infix of `s` that starts after the leading white space |
| Js.TrimSpec | frontend/public/app.js:27 | `s.trim()` has no surrounding white space, is no longer than `s`, has only characters of `s`, and keeps every character of `s` that is not white space |
| Js.TrimKeepsNonSpace | frontend/public/app.js:27 | a character that is not white space survives `trim`, shifted by the amount of leading white space removed |
| Js.TrimOfTrimmed | frontend/public/app.js:27 | `trim` leaves a string without surrounding white space unchanged |
| Js.TrimOfSpace | frontend/public/app.js:27 | a string of white space trims to "" |
| Js.Utf16Length | frontend/public/app.js:338 | `label.length` counts UTF-16 code units: between one and two per character |
| Js.DigitsAreNumeric | frontend/public/app.js:319 | a run of decimal digits is a number (`!isNaN(Number(s))`) |
| Normalize.LowerChar | frontend/public/app.js:27 | `toLowerCase` on a character leaves no capital and leaves non-capitals alone |
| Normalize.Decompose | frontend/public/app.js:27 | NFD of a character is the character itself or a base letter followed by one combining mark; only precomposed letters decompose |
| Normalize.LowerHasNoCapital | frontend/public/app.js:27 | `toLowerCase` leaves no capital and is the identity on a string without capitals |
| Normalize.NfdIsFinal | frontend/public/app.js:27 | after lower-casing, NFD produces neither capitals nor characters that decompose further |
| Normalize.StripMarksSpec | frontend/public/app.js:27 | `replace(/[\u0300-\u036f]/g, "")` keeps exactly the characters of the string that are not combining marks |
| Normalize.NormalizeStrIsFinal | frontend/public/app.js:26-28 | a normalised token has no surrounding white space, and each character is one every stage leaves alone |
| Normalize.NormalizeIdempotent | frontend/public/app.js:26-28 | `normalizeStr(normalizeStr(s)) == normalizeStr(s)` |
| Normalize.NormalizeEmpty | frontend/public/app.js:26-28 | the empty string (the default argument) normalises to "" |
| Normalize.NormalizeBlank | frontend/public/app.js:26-28 | a string made only of white space and combining marks normalises to "" |
| Normalize.NormalizeOfPlain | frontend/public/app.js:26-28 | a trimmed string of lower-case ASCII letters, digits and spaces is its own token |
| Routes.Flatten | frontend/public/app.js:36 | the positions added for a multi-line geometry are exactly those of its lines |
| Routes.FeatureBounds | frontend/public/app.js:30-39 | a region exists exactly for line and multi-line geometries and holds exactly their positions; other or missing geometry gives `null` |
| Routes.Label | frontend/public/app.js:311 | the label is "number — name" when the number is non-empty, else the name, else "(sin nombre)"; it is never empty |
| Routes.MakeEntry | frontend/public/app.js:299-313 | an index record holds the feature, its id, number and name via `String(v ?? "")`, their normalised tokens, the label, and the colour or "#3392ff" when the colour is falsy |
| Routes.BuildIndex | frontend/public/app.js:299-313 | one record per feature, in feature order, none skipped |
| Routes.IndexTokensAreNormal | frontend/public/app.js:308-309 | the index's number and name tokens are fixed points of `normalizeStr` |
| Routes.BuildIndexIsIndex | frontend/public/app.js:299-313 | every record of the built index is the record of its own feature |
| Matcher.ParseQuery | frontend/public/app.js:316-319 | `q` is the normalised query; `qNum` has no surrounding white space; `isNum` holds exactly when `qNum` is non-empty and numeric |
| Matcher.ParseDigits | frontend/public/app.js:316-319 | a run of digits is a numeric query whose `q` and `qNum` are the digits themselves |
| Matcher.ParseRutaNumber | frontend/public/app.js:318-319 | "ruta " followed by digits gives `qNum` equal to the digits, and the query is numeric |
| Matcher.ParseHashNumber | frontend/public/app.js:318-319 | "#" followed by digits gives `qNum` equal to the digits, and the query is numeric |
| Matcher.ScoreMeaning | frontend/public/app.js:323-335 | an entry scores at all exactly when the numeric query is in its number token or the query is in its name token; 100 means an exact number; 90 means an exact name without an exact number; only -1, 50, 60, 70, 80, 90 and 100 occur |
| Matcher.ScoreEntry | frontend/public/app.js:323-334 | the loop body computes the score of one entry as the channel definition gives it |
| Matcher.ScoreUpToSpec | frontend/public/app.js:321-336 | after the first `n` entries, `scored` holds every entry with a non-negative score, with that score, once each, in index order, and nothing else |
| Matcher.ScorePass | frontend/public/app.js:321-336 | the loop builds exactly the scored list of the whole index |
| Matcher.Insert | frontend/public/app.js:338 | inserting into a sorted list keeps it sorted by the comparator and adds exactly the one element |
| Matcher.Sort | frontend/public/app.js:338 | the sorted array is a permutation of `scored`, ordered by the comparator |
| Matcher.SortKeepsTies | frontend/public/app.js:338 | the sort is stable: elements the comparator ties keep their index order |
| Matcher.TopK | frontend/public/app.js:338-339 | for candidates in index order, the result is sorted by the comparator with ties in index order, holds `Min(limit, |scored|)` candidates drawn from the input, and every candidate left out is preceded by every one kept |
| Matcher.RankedBounds | frontend/public/app.js:315-340 | an empty normalised query gives []; otherwise at most `limit` results, each an index entry that a channel accepts, with its score, none twice |
| Matcher.RankedOrder | frontend/public/app.js:338-339 | results come by descending score, then ascending label length, then index order |
| Matcher.RankedComplete | frontend/public/app.js:321-339 | every entry that a channel accepts is returned, unless `limit` results that each precede it fill the list |
| Matcher.ExactNumberFirst | frontend/public/app.js:325-338 | when an entry's number equals the numeric query, it is returned before every returned entry whose number does not |
| Matcher.UnnamedRouteNeverMatches | frontend/public/app.js:325-335 | an entry whose number and name tokens are both empty is never returned, so its "(sin nombre)" label cannot be searched |
| Matcher.OnlyMatch | frontend/public/app.js:321-339 | a query that exactly one entry answers returns that entry alone, with its score |
| Matcher.UniqueNumberFirst | frontend/public/app.js:325-339 | when exactly one route has the queried number, it comes first, with score 100 |
| Matcher.RutaNumberFindsRoute | frontend/public/app.js:315-340 | `matchRoutes("ruta " + d)` puts the only route numbered `d` first |
| Matcher.DigitsFindRoute | frontend/public/app.js:315-340 | `matchRoutes(d)` puts the only route numbered `d` first |
| Matcher.MatchRoutes | frontend/public/app.js:315-340 | the function, statement by statement, returns `Matches(raw, index, limit)` |
| Selection.PopupFor | frontend/public/app.js:100-112 | the popup sits at the click point, else at the centre of the route's region, else at the view centre; its heading is "Ruta" plus `#number` exactly when the number is truthy; its body is the name, or "Sin nombre" when the name is falsy |
| Selection.ConsistentPreserved | frontend/public/app.js:85-122 | every handler keeps the filter equal to the selected id (or "__none__"), and a popup open only while a route is selected |
| Selection.DeselectIdempotent | frontend/public/app.js:88-92 | deselecting twice is deselecting once; afterwards nothing is selected, no popup is open, the framing is unchanged, and the highlight shows only routes whose id string is "__none__" |
| Selection.MapClickIsDeselect | frontend/public/app.js:289-292 | on a consistent state, an empty-map click is exactly a deselection and a click on a route changes nothing |
| Selection.ToggleTwice | frontend/public/app.js:116-122 | one click selects the route exactly when it was not selected; two clicks keep it selected only if it was selected before, and otherwise leave nothing selected |
| Selection.SelectedHighlightedIff | frontend/public/app.js:95-97 | a selected route is highlighted exactly when its id is neither undefined nor null |
| Selection.HighlightMatchesIndexId | frontend/public/app.js:95-97 | for a non-empty id, the highlight shows exactly the routes whose index id string equals the selected one |
| Selection.FitAndSelectCentresPopup | frontend/public/app.js:342-346 | `fitAndSelect` selects the route, frames its region and centres the popup there; without a region the framing stays and the popup goes to the view centre |
| Selection.RouteClickPopupAtClick | frontend/public/app.js:116-122 | a click that selects a route places the popup at the click point and leaves the framing alone |
| Selection.SelectionController.constructor | frontend/public/app.js:82-86 | the page starts with no route selected, the "__none__" filter and no popup |
| Selection.SelectionController.DeselectRoute | frontend/public/app.js:88-92 | `deselectRoute` performs the deselection transition |
| Selection.SelectionController.SelectRouteByFeature | frontend/public/app.js:94-113 | `selectRouteByFeature` performs the selection transition with the popup of `PopupFor` |
| Selection.SelectionController.OnRouteClick | frontend/public/app.js:116-122 | the route-layer click ignores an empty hit list, deselects the selected route and otherwise selects the route at the click |
| Selection.SelectionController.OnMapClick | frontend/public/app.js:289-292 | the map click deselects only when no route is under the pointer and one is selected |
| Selection.SelectionController.OnWindowKeyDown | frontend/public/app.js:294 | the window Escape key deselects; other keys change nothing |
| Selection.SelectionController.FitAndSelect | frontend/public/app.js:342-346 | `fitAndSelect` records the framed region when there is one and selects without a click point |
| Selection.SelectionController.OnPopupClose | frontend/public/app.js:109 | the popup's close button removes the popup and keeps the selection and its highlight |
| Search.NoSuggestionsForEmptyText | frontend/public/app.js:315-317 | `matchRoutes("")` is empty |
| Search.SuggestionsFromIndex | frontend/public/app.js:339 | every suggestion is a record of the route index, and of a built index it is the record of its own feature, with normalised tokens |
| Search.RenderShowsIffMatches | frontend/public/app.js:432-482 | `render` stores the current matches and shows the list exactly when there are any; if shown, the first row is active and every match has a row; if hidden, no row is active |
| Search.StepPreservesWellFormed | frontend/public/app.js:505-554 | from the `onAdd` state, every event keeps the invariant: a shown list holds the current suggestions of the box's text and an active row among them, and the selection stays consistent |
| Search.EnterCommitsActiveRow | frontend/public/app.js:522-525 | Enter on a shown list commits the active suggestion: its label fills the box, the list hides and the route is framed and selected |
| Search.EnterCommitsIndexedRoute | frontend/public/app.js:423-429 | the route Enter commits from a shown list is a route of the index |
| Search.EnterFallbackAgreesWithFirstRow | frontend/public/app.js:526-533 | with the list hidden, Enter selects the same route as rendering and choosing the first row, but keeps the typed text |
| Search.ArrowKeys | frontend/public/app.js:512-521 | on a hidden list both arrows re-render; on a shown list they move the active row by one within the rows, keep the list shown and leave the selection alone |
| Search.EscapeReachesWindow | frontend/public/app.js:535-538 | Escape in the box hides the list, keeps the text and deselects, and the window's own Escape handler then changes nothing |
| Search.ClearThenRender | frontend/public/app.js:549-554 | after the clear button and the focus it gives the box, the box is empty, no list is shown, no row is active and no route is selected |
| Search.RouteSearchControl.constructor | frontend/public/app.js:349-352 | `onAdd` leaves an empty box, a hidden list, no matches and no active row |
| Search.RouteSearchControl.SetActive | frontend/public/app.js:495-503 | `setActive` sets the active row once rows exist and does nothing before |
| Search.RouteSearchControl.Suggest | frontend/public/app.js:434 | the call of `matchRoutes` returns the control's suggestions for the text |
| Search.RouteSearchControl.Render | frontend/public/app.js:432-482 | `render` performs the render transition |
| Search.RouteSearchControl.ChooseIndex | frontend/public/app.js:423-429 | `chooseIndex` ignores an index outside the matches and otherwise commits that row |
| Search.RouteSearchControl.OnInput | frontend/public/app.js:506 | typing re-renders with the new text and keeps the invariant |
| Search.RouteSearchControl.OnFocus | frontend/public/app.js:507 | focusing re-renders and keeps the invariant |
| Search.RouteSearchControl.OnKeyDown | frontend/public/app.js:509-544 | the box's `keydown` handler performs the key transition and keeps the invariant |
| Search.RouteSearchControl.OnArrowKey | frontend/public/app.js:512-521 | the ArrowDown and ArrowUp branches |
| Search.RouteSearchControl.OnEnterKey | frontend/public/app.js:522-534 | the Enter branch, with its fallback |
| Search.RouteSearchControl.OnHomeOrEndKey | frontend/public/app.js:539-543 | the Home and End branches |
| Search.RouteSearchControl.OnItemHover | frontend/public/app.js:469 | hovering a row makes it active and keeps the invariant |
| Search.RouteSearchControl.OnItemMouseDown | frontend/public/app.js:471-474 | pressing a row commits it and keeps the invariant |
| Search.RouteSearchControl.OnBlur | frontend/public/app.js:547 | losing focus hides the list and keeps the invariant |
| Search.RouteSearchControl.OnClear | frontend/public/app.js:549-554 | the clear button empties the box, hides the list, deselects and keeps the invariant |

## Left out

- Normalize.NormalizeStr: `toLowerCase` and NFD are modelled for ASCII and Latin-1 only. The capitals covered are A–Z and U+00C0–U+00DE except U+00D7. The decompositions covered are the precomposed lower-case Latin-1 letters. Other scripts' case mappings and decompositions are not modelled.
- Js.ToJsString: numbers are modelled as unbounded integers only. Floating-point property values and their decimal rendering are not modelled, nor are the exponent form `String(n)` uses from 1e21 on and the loss of exactness above 2^53.
- Js.IsNumericLiteral: `!isNaN(Number(s))` is modelled by the StringNumericLiteral grammar of section 7.1.4.1 of ECMA-262 for the trimmed, non-empty `qNum` that reaches it. Numeric separators are excluded, as that grammar excludes them.
- Routes.FeatureBounds: the region is the list of positions passed to `LngLatBounds.extend`. Its rectangle and its `getCenter()` belong to the map library. A line with no positions gives an empty region, whose centre the library cannot compute. The model still anchors the popup at that region's centre.
- Selection.SelectionController.SelectRouteByFeature: `map.moveLayer("ruta-highlight")` (drawing order) is not modelled. The popup is modelled as its anchor, heading text and body text, not its HTML markup.
- Selection.SelectionController.FitAndSelect: the camera options of `fitBounds` (padding 80, maximum zoom 16, 600 ms) and the animation itself are not modelled. Only the framed region is recorded. An empty region (a line with no positions) is recorded as framed and the route is then selected, although the map library cannot frame such a region and may not get as far as selecting it.
- Selection.SelectionController.OnMapClick: `queryRenderedFeatures` is the map library's. Its result enters as the number of route features under the pointer.
- Search.RouteSearchControl.OnClear: the trailing `input.focus()` fires the focus handler only when the box did not already have focus, which the model does not track. The model therefore treats that render as a separate `Focus` event, and `ClearThenRender` states the pair.
- Search.RouteSearchControl.OnBlur: the 100 ms timer is not modelled. The list hides at the blur event itself.
- Search.RouteSearchControl.OnEnterKey: `input.blur()` in the fallback and `ev.preventDefault()` are not modelled, because focus and default actions are not part of the state.
- Search.RouteSearchControl.OnKeyDown: `input.select()` on Escape (the text selection) is not modelled.
- Search.RouteSearchControl.OnItemHover: row styling, `ensureVisible` scrolling and the colour swatch of each row are not modelled. The index record keeps the colour.
- Search.RouteSearchControl.Suggest: the class holds `matchRoutes` as the ghost function `suggest`, which the constructor fixes to the index's `Matches`. The methods that call the matcher require that link (`Wired`).
- The `/` focus shortcut (lines 413-420) and `onRemove` (lines 559-563) only move focus and detach DOM listeners. Focus and the DOM are not part of the model.
- The map set-up, the route fetch and its error handling, `TiendasSwitchControl`, the geolocation control, icon loading and the backends are not part of this model. They are I/O and calls into the map library.
