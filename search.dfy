/** `RouteSearchControl`: the search box in the top-left corner. Typing or
    focusing renders up to eight suggestions from `matchRoutes` with the
    first one active; the arrow keys, Home and End move the active row;
    Enter or a mouse press commits a suggestion with `fitAndSelect`; Escape
    and the clear button hide the list and drop the selection. */
module Search {
  import opened Wrappers
  import opened Js
  import opened Normalize
  import opened Routes
  import opened Matcher
  import opened Selection

  /** The control's own state: the input's text, whether the suggestion list
      is displayed, `_matches`, the number of rendered rows
      (`_items.length`, 0 before the first render) and `_activeIndex`. */
  datatype View = View(input: string, shown: bool, matches: seq<RouteEntry>, itemCount: nat, activeIndex: int)

  /** The state `onAdd` leaves: empty box, hidden list, nothing active. */
  const InitialView: View := View("", false, [], 0, -1)

  /** The search box together with the page's selection, which its handlers
      also change. */
  datatype Control = Control(view: View, selection: SelectionState)

  /** The DOM events the control listens to. `Hover` and `MouseDown` carry
      the row index of the suggestion; `KeyDown` carries `ev.key`. */
  datatype Event =
    | Input(value: string)
    | Focus
    | KeyDown(key: string)
    | Hover(row: int)
    | MouseDown(row: int)
    | Blur
    | Clear

  // ---------------------------------------------------------------------
  // The handlers as transitions. `suggest` is `matchRoutes` with its default
  // limit over the page's route index; the handlers only use its results.
  // ---------------------------------------------------------------------

  /** `matchRoutes(text)` over `index`. */
  function Suggestions(index: seq<RouteEntry>): string -> seq<RouteEntry>
  {
    text => Matches(text, index, DefaultLimit)
  }

  /** `render()`: recompute the matches for the box's text, then show the
      list with the first row active, or hide it with no row active when
      the text is empty or nothing matches. */
  function Rendered(v: View, suggest: string -> seq<RouteEntry>): View
  {
    var ms := suggest(v.input);
    if v.input == "" || ms == [] then v.(shown := false, matches := ms, itemCount := 0, activeIndex := -1)
    else v.(shown := true, matches := ms, itemCount := |ms|, activeIndex := 0)
  }

  /** `setActive(idx)`: no effect until some rows have been rendered. */
  function WithActive(v: View, idx: int): View
  {
    if v.itemCount == 0 then v else v.(activeIndex := idx)
  }

  /** `(this._items?.length || 1) - 1` */
  function LastRow(v: View): int
  {
    (if v.itemCount > 0 then v.itemCount else 1) - 1
  }

  /** `chooseIndex(idx)`: for a row that exists, put its label in the box,
      hide the list and `fitAndSelect` its route. */
  function Chosen(c: Control, idx: int): Control
  {
    if idx < 0 || idx >= |c.view.matches| then c
    else
      var r := c.view.matches[idx];
      Control(c.view.(input := r.labelText, shown := false), FittedAndSelected(c.selection, r.feature))
  }

  /** The box's `keydown` handler. */
  function AfterKey(c: Control, key: string, suggest: string -> seq<RouteEntry>): Control
  {
    var v := c.view;
    if key == "ArrowDown" then
      if !v.shown then c.(view := Rendered(v, suggest))
      else c.(view := WithActive(v, Min(v.activeIndex + 1, LastRow(v))))
    else if key == "ArrowUp" then
      if !v.shown then c.(view := Rendered(v, suggest))
      else c.(view := WithActive(v, Max(v.activeIndex - 1, 0)))
    else if key == "Enter" then
      if v.shown && v.activeIndex >= 0 then Chosen(c, v.activeIndex)
      else
        // The fallback commits the best match but leaves the typed text.
        var ms := suggest(v.input);
        if ms != [] then Control(v.(shown := false), FittedAndSelected(c.selection, ms[0].feature)) else c
    else if key == "Escape" then Control(v.(shown := false), Deselected(c.selection))
    else if key == "Home" then
      if v.shown then c.(view := WithActive(v, 0)) else c
    else if key == "End" then
      if v.shown then c.(view := WithActive(v, LastRow(v))) else c
    else c
  }

  /** One event handled by the control. */
  function Step(c: Control, ev: Event, suggest: string -> seq<RouteEntry>): Control
  {
    match ev
    case Input(value) => c.(view := Rendered(c.view.(input := value), suggest))
    case Focus => c.(view := Rendered(c.view, suggest))
    case KeyDown(key) => AfterKey(c, key, suggest)
    case Hover(row) => c.(view := WithActive(c.view, row))
    case MouseDown(row) => Chosen(c, row)
    case Blur => c.(view := c.view.(shown := false))
    case Clear => Control(c.view.(input := "", shown := false), Deselected(c.selection))
  }

  /** Row events come from rows of a displayed list. */
  predicate Enabled(v: View, ev: Event)
  {
    (ev.Hover? || ev.MouseDown?) ==> v.shown && 0 <= ev.row < v.itemCount
  }

  // ---------------------------------------------------------------------
  // Properties.
  // ---------------------------------------------------------------------

  /** The control's invariant: a displayed list shows the current
      suggestions for the box's text, at least one of them; either no row
      has been rendered and none is active, or the rendered rows are the
      suggestions and the active one is among them. */
  predicate WellFormed(v: View, suggest: string -> seq<RouteEntry>)
  {
    && (v.shown ==> v.input != "" && v.matches == suggest(v.input) && v.itemCount > 0)
    && ((v.itemCount == 0 && v.activeIndex == -1)
        || (0 <= v.activeIndex < v.itemCount && v.itemCount == |v.matches|))
  }

  /** The invariant of the search box together with the selection. */
  predicate ValidControl(c: Control, suggest: string -> seq<RouteEntry>)
  {
    WellFormed(c.view, suggest) && Consistent(c.selection)
  }

  /** An empty query matches nothing, so the `!q` test in `render` never
      decides anything on its own. */
  lemma {:induction false} NoSuggestionsForEmptyText(index: seq<RouteEntry>)
    ensures Suggestions(index)("") == []
  {
    NormalizeEmpty();
    RankedBounds(ParseQuery(""), index, DefaultLimit);
  }

  /** Every suggestion is a record of the route index. */
  lemma SuggestionsFromIndex(index: seq<RouteEntry>, text: string, k: nat)
    requires k < |Suggestions(index)(text)|
    ensures Suggestions(index)(text)[k] in index
    ensures IsIndex(index) ==>
      Suggestions(index)(text)[k] == MakeEntry(Suggestions(index)(text)[k].feature)
  {
    var q := ParseQuery(text);
    RankedBounds(q, index, DefaultLimit);
    assert IsCandidateOf(Ranked(q, index, DefaultLimit)[k], index, q);
  }

  /** `render` displays the list exactly when there are suggestions, with the
      first row active, and otherwise activates nothing. */
  lemma RenderShowsIffMatches(v: View, suggest: string -> seq<RouteEntry>)
    requires suggest("") == []
    ensures var w := Rendered(v, suggest);
      && w.matches == suggest(v.input)
      && (w.shown <==> suggest(v.input) != [])
      && (w.shown ==> w.activeIndex == 0 && w.itemCount == |w.matches|)
      && (!w.shown ==> w.activeIndex == -1 && w.itemCount == 0)
      && w.input == v.input
  {
  }

  /** Every enabled event keeps the control well formed and the selection
      consistent, starting from the state `onAdd` leaves. */
  lemma StepPreservesWellFormed(c: Control, ev: Event, suggest: string -> seq<RouteEntry>)
    requires ValidControl(c, suggest) && Enabled(c.view, ev)
    ensures ValidControl(Control(InitialView, Initial), suggest)
    ensures ValidControl(Step(c, ev, suggest), suggest)
  {
    var v := c.view;
    var t := Step(c, ev, suggest);
    match ev
    case Input(value) =>
    case Focus =>
    case KeyDown(key) =>
      var ms := suggest(v.input);
      if key == "Enter" && !(v.shown && v.activeIndex >= 0) && ms != [] {
        ConsistentPreserved(c.selection, ms[0].feature, None, [], Position(0.0, 0.0), 0, key);
      } else if key == "Enter" && 0 <= v.activeIndex < |v.matches| {
        ConsistentPreserved(c.selection, v.matches[v.activeIndex].feature, None, [], Position(0.0, 0.0), 0, key);
      } else if key == "Escape" {
        assert t.selection == Deselected(c.selection);
      }
    case Hover(row) =>
    case MouseDown(row) =>
      if 0 <= row < |v.matches| {
        ConsistentPreserved(c.selection, v.matches[row].feature, None, [], Position(0.0, 0.0), 0, "");
      }
    case Blur =>
    case Clear =>
      assert t.selection == Deselected(c.selection);
  }

  /** Enter on a displayed list always commits the active row, never the
      fallback: the box takes its label, the list hides and the route is
      framed and selected. */
  lemma EnterCommitsActiveRow(c: Control, suggest: string -> seq<RouteEntry>)
    requires WellFormed(c.view, suggest) && c.view.shown
    ensures var v := c.view;
      var e := v.matches[v.activeIndex];
      && e in suggest(v.input)
      && AfterKey(c, "Enter", suggest) == Control(v.(input := e.labelText, shown := false), FittedAndSelected(c.selection, e.feature))
  {
  }

  /** The route Enter commits from a displayed list is a route of the
      index. */
  lemma EnterCommitsIndexedRoute(c: Control, index: seq<RouteEntry>)
    requires WellFormed(c.view, Suggestions(index)) && c.view.shown
    ensures exists e :: e in index && AfterKey(c, "Enter", Suggestions(index)).selection == FittedAndSelected(c.selection, e.feature)
  {
    var v := c.view;
    EnterCommitsActiveRow(c, Suggestions(index));
    SuggestionsFromIndex(index, v.input, v.activeIndex);
  }

  /** With the list hidden, Enter commits the same route as re-rendering and
      pressing Enter on the first row would, but keeps the typed text in the
      box instead of the route's label. */
  lemma EnterFallbackAgreesWithFirstRow(c: Control, suggest: string -> seq<RouteEntry>)
    requires suggest("") == []
    requires !c.view.shown && suggest(c.view.input) != []
    ensures var direct := AfterKey(c, "Enter", suggest);
      var viaList := AfterKey(Step(c, Focus, suggest), "Enter", suggest);
      && direct.selection == viaList.selection
      && direct.view.input == c.view.input
      && viaList.view.input == suggest(c.view.input)[0].labelText
      && !direct.view.shown && !viaList.view.shown
  {
    RenderShowsIffMatches(c.view, suggest);
  }

  /** Both arrow keys on a hidden list re-render it, ArrowUp included; on a
      displayed list they move the active row by one, stopping at either
      end, and keep the list displayed and the selection as it was. */
  lemma ArrowKeys(c: Control, suggest: string -> seq<RouteEntry>)
    requires WellFormed(c.view, suggest)
    ensures !c.view.shown ==>
      && AfterKey(c, "ArrowDown", suggest) == Step(c, Focus, suggest)
      && AfterKey(c, "ArrowUp", suggest) == Step(c, Focus, suggest)
    ensures c.view.shown ==>
      && AfterKey(c, "ArrowDown", suggest).view.activeIndex == Min(c.view.activeIndex + 1, |c.view.matches| - 1)
      && AfterKey(c, "ArrowUp", suggest).view.activeIndex == Max(c.view.activeIndex - 1, 0)
      && AfterKey(c, "ArrowDown", suggest).view.shown && AfterKey(c, "ArrowUp", suggest).view.shown
      && AfterKey(c, "ArrowDown", suggest).selection == c.selection
  {
  }

  /** An Escape typed in the box also reaches the window's handler; the
      second deselection changes nothing. */
  lemma EscapeReachesWindow(c: Control, suggest: string -> seq<RouteEntry>)
    ensures var t := AfterKey(c, "Escape", suggest);
      && AfterWindowKey(t.selection, "Escape") == t.selection
      && t.selection.selectedId.None? && !t.view.shown && t.view.input == c.view.input
  {
    DeselectIdempotent(c.selection);
  }

  /** After the clear button, a render of the empty box displays nothing and
      activates nothing, and no route stays selected. */
  lemma ClearThenRender(c: Control, suggest: string -> seq<RouteEntry>)
    requires suggest("") == []
    ensures var t := Step(Step(c, Clear, suggest), Focus, suggest);
      && t.view.input == "" && !t.view.shown && t.view.matches == [] && t.view.activeIndex == -1
      && t.selection.selectedId.None? && t.selection.popup.None?
  {
  }

  // ---------------------------------------------------------------------
  // The control object.
  // ---------------------------------------------------------------------

  class RouteSearchControl {
    const index: seq<RouteEntry>
    const selection: SelectionController
    /** `matchRoutes` over `index`, as the handlers see it. */
    ghost const suggest: string -> seq<RouteEntry>
    var input: string
    var listShown: bool
    var matches: seq<RouteEntry>
    var itemCount: nat
    var activeIndex: int

    function Current(): View
      reads this
    {
      View(input, listShown, matches, itemCount, activeIndex)
    }

    function State(): Control
      reads this, selection
    {
      Control(Current(), selection.Snapshot())
    }

    ghost predicate Valid()
      reads this, selection
    {
      ValidControl(State(), suggest)
    }

    /** `suggest` is `matchRoutes` over the control's route index. */
    ghost predicate Wired()
    {
      suggest == Suggestions(index)
    }

    /** `onAdd`, with the route index and the page's selection it closes over. */
    constructor (index: seq<RouteEntry>, selection: SelectionController)
      requires Consistent(selection.Snapshot())
      ensures this.index == index && this.selection == selection
      ensures Current() == InitialView && Wired() && Valid()
    {
      this.index := index;
      this.selection := selection;
      this.suggest := Suggestions(index);
      input := "";
      listShown := false;
      matches := [];
      itemCount := 0;
      activeIndex := -1;
    }

    method SetActive(idx: int)
      modifies this
      ensures Current() == WithActive(old(Current()), idx)
    {
      if itemCount == 0 {
        return;
      }
      activeIndex := idx;
    }

    /** A call of `matchRoutes(text)`. */
    method Suggest(text: string) returns (ms: seq<RouteEntry>)
      requires Wired()
      ensures ms == suggest(text)
    {
      ms := MatchRoutes(text, index, DefaultLimit);
    }

    method Render()
      requires Wired()
      modifies this
      ensures Current() == Rendered(old(Current()), suggest)
    {
      var q := input;
      matches := Suggest(q);
      itemCount := 0;
      activeIndex := -1;
      if q == "" || |matches| == 0 {
        listShown := false;
        return;
      }
      listShown := true;
      itemCount := |matches|;
      SetActive(0);
    }

    method ChooseIndex(idx: int)
      modifies this, selection
      ensures State() == Chosen(old(State()), idx)
    {
      if idx < 0 || idx >= |matches| {
        return;
      }
      var r := matches[idx];
      input := r.labelText;
      listShown := false;
      selection.FitAndSelect(r.feature);
    }

    method OnInput(value: string)
      requires Valid() && Wired()
      modifies this, selection
      ensures Valid()
      ensures State() == Step(old(State()), Input(value), suggest)
    {
      StepPreservesWellFormed(State(), Input(value), suggest);
      input := value;
      Render();
    }

    method OnFocus()
      requires Valid() && Wired()
      modifies this, selection
      ensures Valid()
      ensures State() == Step(old(State()), Focus, suggest)
    {
      StepPreservesWellFormed(State(), Focus, suggest);
      Render();
    }

    method OnKeyDown(key: string)
      requires Valid() && Wired()
      modifies this, selection
      ensures Valid()
      ensures State() == Step(old(State()), KeyDown(key), suggest)
    {
      StepPreservesWellFormed(State(), KeyDown(key), suggest);
      if key == "ArrowDown" || key == "ArrowUp" {
        OnArrowKey(key);
      } else if key == "Enter" {
        OnEnterKey();
      } else if key == "Escape" {
        listShown := false;
        selection.DeselectRoute();
      } else if key == "Home" || key == "End" {
        OnHomeOrEndKey(key);
      }
    }

    /** The ArrowDown and ArrowUp branches of the `keydown` handler. */
    method OnArrowKey(key: string)
      requires Wired() && (key == "ArrowDown" || key == "ArrowUp")
      modifies this
      ensures State() == AfterKey(old(State()), key, suggest)
    {
      var visible := listShown;
      if !visible {
        Render();
        return;
      }
      if key == "ArrowDown" {
        var next := Min(activeIndex + 1, (if itemCount > 0 then itemCount else 1) - 1);
        SetActive(next);
      } else {
        var prev := Max(activeIndex - 1, 0);
        SetActive(prev);
      }
    }

    /** The Enter branch of the `keydown` handler. */
    method OnEnterKey()
      requires Wired()
      modifies this, selection
      ensures State() == AfterKey(old(State()), "Enter", suggest)
    {
      var visible := listShown;
      if visible && activeIndex >= 0 {
        ChooseIndex(activeIndex);
      } else {
        var best := Suggest(input);
        if |best| > 0 {
          listShown := false;
          selection.FitAndSelect(best[0].feature);
        }
      }
    }

    /** The Home and End branches of the `keydown` handler. */
    method OnHomeOrEndKey(key: string)
      requires key == "Home" || key == "End"
      modifies this
      ensures State() == AfterKey(old(State()), key, suggest)
    {
      var visible := listShown;
      if visible {
        if key == "Home" {
          SetActive(0);
        } else {
          SetActive((if itemCount > 0 then itemCount else 1) - 1);
        }
      }
    }

    method OnItemHover(row: int)
      requires Valid() && Enabled(Current(), Hover(row))
      modifies this, selection
      ensures Valid()
      ensures State() == Step(old(State()), Hover(row), suggest)
    {
      StepPreservesWellFormed(State(), Hover(row), suggest);
      SetActive(row);
    }

    method OnItemMouseDown(row: int)
      requires Valid() && Enabled(Current(), MouseDown(row))
      modifies this, selection
      ensures Valid()
      ensures State() == Step(old(State()), MouseDown(row), suggest)
    {
      StepPreservesWellFormed(State(), MouseDown(row), suggest);
      ChooseIndex(row);
    }

    /** The blur handler, once its timer has fired. */
    method OnBlur()
      requires Valid()
      modifies this, selection
      ensures Valid()
      ensures State() == Step(old(State()), Blur, suggest)
    {
      StepPreservesWellFormed(State(), Blur, suggest);
      listShown := false;
    }

    method OnClear()
      requires Valid()
      modifies this, selection
      ensures Valid()
      ensures State() == Step(old(State()), Clear, suggest)
    {
      StepPreservesWellFormed(State(), Clear, suggest);
      input := "";
      listShown := false;
      selection.DeselectRoute();
    }
  }
}
