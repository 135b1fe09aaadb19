/** The `useTheme` hook (synaptic-learn/src/hooks/use-theme.ts): a theme state cell
    read from `localStorage` on mount, a toggle, and an effect that writes the
    theme back to storage and to the root element's `data-theme` attribute after
    every change. */
module ThemeHook {
  import opened Text
  import Browser

  const Light := "light"
  const Dark := "dark"
  const ThemeKey := "theme"
  const ThemeAttribute := "data-theme"

  predicate IsKnownTheme(theme: string) { theme == Light || theme == Dark }

  /** `localStorage.getItem("theme") || "light"`: a missing or empty entry gives
      "light", anything else is taken as it is. */
  function InitialTheme(stored: Option<string>): (theme: string)
    ensures theme != []
    ensures stored.Some? && stored.value != [] ==> theme == stored.value
  {
    if stored.None? || stored.value == [] then Light else stored.value
  }

  /** `prevTheme === "light" ? "dark" : "light"`; the settings store uses the same rule. */
  function NextTheme(theme: string): string {
    if theme == Light then Dark else Light
  }

  /** The toggle always lands on a known theme, goes to "dark" exactly from
      "light", and undoes itself on the two known themes only. */
  lemma NextThemeSpec(theme: string)
    ensures IsKnownTheme(NextTheme(theme))
    ensures NextTheme(theme) == Dark <==> theme == Light
    ensures NextTheme(NextTheme(theme)) == theme <==> IsKnownTheme(theme)
  {
  }

  class UseTheme {
    var theme: string
    const storage: Browser.LocalStorage
    const root: Browser.DocumentRoot

    /** The effect's work is done: storage and the root attribute show the theme. */
    ghost predicate Synced()
      reads this, storage, root
    {
      ThemeKey in storage.items && storage.items[ThemeKey] == theme
      && ThemeAttribute in root.attributes && root.attributes[ThemeAttribute] == theme
    }

    /** The first render: the state starts from storage. */
    constructor(storage: Browser.LocalStorage, root: Browser.DocumentRoot)
      ensures this.storage == storage && this.root == root
      ensures theme == InitialTheme(storage.GetItem(ThemeKey))
    {
      this.storage := storage;
      this.root := root;
      theme := InitialTheme(storage.GetItem(ThemeKey));
    }

    /** The effect on `[theme]`: write the theme to storage and to the root element. */
    method Effect()
      modifies storage, root
      ensures storage.items == old(storage.items)[ThemeKey := theme]
      ensures root.attributes == old(root.attributes)[ThemeAttribute := theme]
      ensures Synced()
    {
      storage.SetItem(ThemeKey, theme);
      root.SetAttribute(ThemeAttribute, theme);
    }

    /** `toggleTheme`, followed by the effect React runs for the new theme. */
    method ToggleTheme()
      modifies this, storage, root
      ensures theme == NextTheme(old(theme))
      ensures storage.items == old(storage.items)[ThemeKey := theme]
      ensures root.attributes == old(root.attributes)[ThemeAttribute := theme]
      ensures Synced()
    {
      theme := NextTheme(theme);
      Effect();
    }
  }

  /** Mounting writes back what was read, or "light", and two toggles from a known
      theme restore both the state and what storage and the document show. */
  method MountAndToggleTwice(storage: Browser.LocalStorage, root: Browser.DocumentRoot)
    returns (hook: UseTheme)
    modifies storage, root
    ensures fresh(hook) && hook.storage == storage && hook.root == root
    ensures hook.Synced()
    ensures IsKnownTheme(old(InitialTheme(storage.GetItem(ThemeKey)))) ==>
      hook.theme == old(InitialTheme(storage.GetItem(ThemeKey)))
  {
    hook := new UseTheme(storage, root);
    hook.Effect();
    var first := hook.theme;
    hook.ToggleTheme();
    hook.ToggleTheme();
    NextThemeSpec(first);
  }
}
