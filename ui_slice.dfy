/**
 The UI slice of the store (lib/store/uiSlice.ts): the active category and
 the sort configuration, two actions that each replace one of them, and the
 selectors that read them back. `Reduce` is the slice's reducer as a value
 function; `UiStore` is the state object its case reducers assign to.
 */
module UiSlice {
  import opened Types

  datatype UiState = UiState(activeCategory: Category, sortConfig: SortConfig)

  /** The slice's two actions with their payloads. */
  datatype Action = SetActiveCategory(category: Category) | SetSortConfig(config: SortConfig)

  /** `initialState`: the "new" category, sorted by TVL, largest first. */
  const InitialState: UiState := UiState(New, SortBy(TvlKey, Descending))

  /** The reducer: each action replaces exactly one field. */
  function Reduce(s: UiState, a: Action): (r: UiState)
    ensures a.SetActiveCategory? ==> r.activeCategory == a.category && r.sortConfig == s.sortConfig
    ensures a.SetSortConfig? ==> r.sortConfig == a.config && r.activeCategory == s.activeCategory
  {
    match a
    case SetActiveCategory(c) => s.(activeCategory := c)
    case SetSortConfig(cfg) => s.(sortConfig := cfg)
  }

  /** Dispatching a sequence of actions, first to last. */
  function DispatchAll(s: UiState, actions: seq<Action>): UiState
    decreases |actions|
  {
    if actions == [] then s else DispatchAll(Reduce(s, actions[0]), actions[1..])
  }

  /** The payload of the last `setActiveCategory` in `actions`, or `d` when there is none. */
  function LastCategory(actions: seq<Action>, d: Category): Category
  {
    if actions == [] then d
    else match actions[|actions| - 1]
      case SetActiveCategory(c) => c
      case SetSortConfig(_) => LastCategory(actions[..|actions| - 1], d)
  }

  /** The payload of the last `setSortConfig` in `actions`, or `d` when there is none. */
  function LastSortConfig(actions: seq<Action>, d: SortConfig): SortConfig
  {
    if actions == [] then d
    else match actions[|actions| - 1]
      case SetSortConfig(cfg) => cfg
      case SetActiveCategory(_) => LastSortConfig(actions[..|actions| - 1], d)
  }

  /** Dispatching the same action twice is dispatching it once. */
  lemma ReduceIdempotent(s: UiState, a: Action)
    ensures Reduce(Reduce(s, a), a) == Reduce(s, a)
  {
  }

  lemma {:induction false} DispatchAllSnoc(s: UiState, actions: seq<Action>, a: Action)
    ensures DispatchAll(s, actions + [a]) == Reduce(DispatchAll(s, actions), a)
    decreases |actions|
  {
    if actions == [] {
      assert [] + [a] == [a];
      assert [a][1..] == [];
    } else {
      assert (actions + [a])[1..] == actions[1..] + [a];
      DispatchAllSnoc(Reduce(s, actions[0]), actions[1..], a);
    }
  }

  /**
   After any sequence of actions, each field holds the payload of the last
   action that set it, or its starting value when no action set it.
   */
  lemma {:induction false} DispatchAllLastWins(s: UiState, actions: seq<Action>)
    ensures DispatchAll(s, actions) ==
      UiState(LastCategory(actions, s.activeCategory), LastSortConfig(actions, s.sortConfig))
    decreases |actions|
  {
    if actions != [] {
      var init, last := actions[..|actions| - 1], actions[|actions| - 1];
      assert actions == init + [last];
      DispatchAllSnoc(s, init, last);
      DispatchAllLastWins(s, init);
    }
  }

  /**
   From the initial state, the category stays "new" until some action
   changes it, and the sort stays (tvl, descending) until some action does.
   */
  lemma FromInitialState(actions: seq<Action>)
    ensures (forall k :: 0 <= k < |actions| ==> actions[k].SetSortConfig?) ==>
      DispatchAll(InitialState, actions).activeCategory == New
    ensures (forall k :: 0 <= k < |actions| ==> actions[k].SetActiveCategory?) ==>
      DispatchAll(InitialState, actions).sortConfig == SortBy(TvlKey, Descending)
  {
    DispatchAllLastWins(InitialState, actions);
    NoCategoryActionKeepsDefault(actions, New);
    NoSortActionKeepsDefault(actions, SortBy(TvlKey, Descending));
  }

  lemma {:induction false} NoCategoryActionKeepsDefault(actions: seq<Action>, d: Category)
    ensures (forall k :: 0 <= k < |actions| ==> actions[k].SetSortConfig?) ==> LastCategory(actions, d) == d
  {
    if actions != [] && forall k :: 0 <= k < |actions| ==> actions[k].SetSortConfig? {
      NoCategoryActionKeepsDefault(actions[..|actions| - 1], d);
    }
  }

  lemma {:induction false} NoSortActionKeepsDefault(actions: seq<Action>, d: SortConfig)
    ensures (forall k :: 0 <= k < |actions| ==> actions[k].SetActiveCategory?) ==> LastSortConfig(actions, d) == d
  {
    if actions != [] && forall k :: 0 <= k < |actions| ==> actions[k].SetActiveCategory? {
      NoSortActionKeepsDefault(actions[..|actions| - 1], d);
    }
  }

  /** The slice's state object, which the case reducers assign to in place. */
  class UiStore {
    var activeCategory: Category
    var sortConfig: SortConfig

    function State(): UiState
      reads this
    {
      UiState(activeCategory, sortConfig)
    }

    /** `selectActiveCategory` */
    function SelectActiveCategory(): (c: Category)
      reads this
      ensures c == State().activeCategory
    {
      activeCategory
    }

    /** `selectSortConfig` */
    function SelectSortConfig(): (cfg: SortConfig)
      reads this
      ensures cfg == State().sortConfig
    {
      sortConfig
    }

    constructor ()
      ensures State() == InitialState
    {
      activeCategory := New;
      sortConfig := SortBy(TvlKey, Descending);
    }

    method SetActiveCategory(c: Category)
      modifies this
      ensures SelectActiveCategory() == c && SelectSortConfig() == old(SelectSortConfig())
      ensures State() == Reduce(old(State()), Action.SetActiveCategory(c))
    {
      activeCategory := c;
    }

    method SetSortConfig(cfg: SortConfig)
      modifies this
      ensures SelectSortConfig() == cfg && SelectActiveCategory() == old(SelectActiveCategory())
      ensures State() == Reduce(old(State()), Action.SetSortConfig(cfg))
    {
      sortConfig := cfg;
    }
  }
}
