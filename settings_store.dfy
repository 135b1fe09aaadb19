/** The zustand settings store (synaptic-learn/src/hooks/use-settings-store.ts):
    maxResults and theme, two actions, and the `persist` middleware, which saves the
    state under "settings-storage" after every `set` and restores it when the store
    is created. The saved entry is modelled as a snapshot of the two fields rather
    than as its JSON text. */
module SettingsStore {
  import ThemeHook

  const StorageKey := "settings-storage"

  datatype Snapshot = Snapshot(maxResults: int, theme: string)

  const InitialState := Snapshot(3, "light")

  class Store {
    var maxResults: int
    var theme: string
    /** The entries the middleware keeps in `localStorage`. */
    var saved: map<string, Snapshot>

    function State(): Snapshot
      reads this
    {
      Snapshot(maxResults, theme)
    }

    /** The saved entry holds the current state. */
    predicate Persisted()
      reads this
    {
      StorageKey in saved && saved[StorageKey] == State()
    }

    /** Creation: the initial state, replaced by the saved one when there is one. */
    constructor(saved: map<string, Snapshot>)
      ensures this.saved == saved
      ensures State() == if StorageKey in saved then saved[StorageKey] else InitialState
    {
      this.saved := saved;
      var state := if StorageKey in saved then saved[StorageKey] else InitialState;
      maxResults := state.maxResults;
      theme := state.theme;
    }

    /** `setMaxResults`: any number is taken; the theme stays. */
    method SetMaxResults(value: int)
      modifies this
      ensures maxResults == value && theme == old(theme)
      ensures saved == old(saved)[StorageKey := State()]
      ensures Persisted()
    {
      maxResults := value;
      saved := saved[StorageKey := State()];
    }

    /** `toggleTheme`: "light" becomes "dark", anything else "light"; maxResults stays. */
    method ToggleTheme()
      modifies this
      ensures theme == ThemeHook.NextTheme(old(theme)) && maxResults == old(maxResults)
      ensures saved == old(saved)[StorageKey := State()]
      ensures Persisted()
    {
      theme := ThemeHook.NextTheme(theme);
      saved := saved[StorageKey := State()];
    }
  }

  /** A store created from what another store saved starts in that store's state,
      and two toggles from a known theme come back to the same state. */
  method ReloadAfterToggles(store: Store) returns (reloaded: Store)
    modifies store
    ensures store.maxResults == old(store.maxResults)
    ensures ThemeHook.IsKnownTheme(old(store.theme)) ==> store.theme == old(store.theme)
    ensures fresh(reloaded) && reloaded.State() == store.State()
  {
    var before := store.theme;
    store.ToggleTheme();
    store.ToggleTheme();
    ThemeHook.NextThemeSpec(before);
    reloaded := new Store(store.saved);
  }
}
