/** The theme service: the light/dark preference, the class it puts on the
    document element, the two storage keys it keeps in step, and its reaction
    to other code changing the document's classes. The document's class list is
    a set; the system preference is a boolean; view transitions are not
    modelled. */
module Theme {
  import opened Wrappers
  import opened Storage

  datatype Theme = Light | Dark

  /** The theme's name, as stored and as a class. */
  function Name(t: Theme): string {
    match t
    case Light => "light"
    case Dark => "dark"
  }

  function Other(t: Theme): Theme {
    match t
    case Light => Dark
    case Dark => Light
  }

  const ThemeKey := "theme-preference"
  const LibraryThemeKey := "theme"

  /** The theme signal, the document element's classes, and storage. */
  datatype ThemeState = ThemeState(theme: Theme, classes: set<string>, store: Store)

  /** `getInitialTheme`: a stored preference of `light` or `dark` wins; any
      other stored value, or none, defers to the system preference. */
  function InitialTheme(store: Store, prefersDark: bool): (t: Theme)
    ensures GetItem(store, ThemeKey) == Some("light") ==> t == Light
    ensures GetItem(store, ThemeKey) == Some("dark") ==> t == Dark
    ensures GetItem(store, ThemeKey) != Some("light") && GetItem(store, ThemeKey) != Some("dark") ==>
      (t == Dark <==> prefersDark)
  {
    var stored := GetItem(store, ThemeKey);
    if stored == Some("light") then Light
    else if stored == Some("dark") then Dark
    else if prefersDark then Dark
    else Light
  }

  /** The theme `toggleTheme` switches to: `dark` becomes `light`, anything else
      becomes `dark`. */
  function Toggled(t: Theme): (r: Theme)
    ensures r != t
  {
    if t == Dark then Light else Dark
  }

  /** Toggling twice gives back the theme. */
  lemma ToggledInvolution(t: Theme)
    ensures Toggled(Toggled(t)) == t
  {
  }

  /** `applyTheme`: the theme's class is added and the other theme's class is
      removed; all other classes stay as they were. */
  function ApplyTheme(classes: set<string>, t: Theme): (r: set<string>)
    ensures Name(t) in r && Name(Other(t)) !in r
    ensures forall c :: c != "light" && c != "dark" ==> (c in r <==> c in classes)
  {
    classes + {Name(t)} - {Name(Other(t))}
  }

  /** The effect that runs whenever the theme signal changes: apply the theme
      to the document and write it under both storage keys. */
  function Commit(s: ThemeState, t: Theme): ThemeState {
    ThemeState(t, ApplyTheme(s.classes, t), s.store[ThemeKey := Name(t)][LibraryThemeKey := Name(t)])
  }

  /** The theme is written under both keys. */
  predicate Persisted(s: ThemeState) {
    GetItem(s.store, ThemeKey) == Some(Name(s.theme)) && GetItem(s.store, LibraryThemeKey) == Some(Name(s.theme))
  }

  /** The document carries the theme's class and not the other one. */
  predicate Applied(s: ThemeState) {
    Name(s.theme) in s.classes && Name(Other(s.theme)) !in s.classes
  }

  /** The constructor: the initial theme, and one run of the effect. */
  function Start(store: Store, prefersDark: bool, classes: set<string>): (s: ThemeState)
    ensures s.theme == InitialTheme(store, prefersDark)
    ensures Persisted(s) && Applied(s)
    ensures forall c :: c != "light" && c != "dark" ==> (c in s.classes <==> c in classes)
  {
    var t := InitialTheme(store, prefersDark);
    Commit(ThemeState(t, classes, store), t)
  }

  /** `toggleTheme`: the signal always changes, so the effect runs. */
  function ToggleTheme(s: ThemeState): (r: ThemeState)
    ensures r.theme == Toggled(s.theme)
    ensures Persisted(r) && Applied(r)
  {
    Commit(s, Toggled(s.theme))
  }

  /** `setTheme`: a signal set to its current value does not notify, so the
      effect runs only when the theme changes. */
  function SetTheme(s: ThemeState, t: Theme): (r: ThemeState)
    ensures r.theme == t
    ensures t == s.theme ==> r == s
    ensures t != s.theme ==> Persisted(r) && Applied(r)
    ensures Persisted(s) && Applied(s) ==> Persisted(r) && Applied(r)
  {
    if t == s.theme then s else Commit(s, t)
  }

  /** `isDarkMode`: read from the signal; once the theme is applied it
      agrees with the document's `dark` class. */
  function IsDarkMode(s: ThemeState): (b: bool)
    ensures Applied(s) ==> (b <==> "dark" in s.classes)
  {
    s.theme == Dark
  }

  /** The mutation observer, after other code set the document's classes to
      `classes`: the observed theme is `dark` exactly when the `dark` class is
      present; only when that differs from the signal are the signal and
      storage updated (and the effect then runs). */
  function DomSync(s: ThemeState, classes: set<string>): (r: ThemeState)
    ensures r.theme == (if "dark" in classes then Dark else Light)
    ensures IsDarkMode(r) <==> "dark" in r.classes
    ensures r.theme == s.theme ==> r == ThemeState(s.theme, classes, s.store)
    ensures Persisted(s) ==> Persisted(r)
  {
    var observed := if "dark" in classes then Dark else Light;
    var seen := ThemeState(s.theme, classes, s.store);
    if observed != s.theme then Commit(seen, observed) else seen
  }

  /** Toggling twice restores a consistent state exactly. */
  lemma ToggleTwice(s: ThemeState)
    requires Persisted(s) && Applied(s)
    ensures ToggleTheme(ToggleTheme(s)) == s
  {
    var r := ToggleTheme(ToggleTheme(s));
    assert r.classes == s.classes;
    assert r.store == s.store;
  }

  /** The observer is quiet about the service's own changes: once the effect
      has applied a theme, the resulting class list leaves everything as is. */
  lemma ObserverQuietAfterCommit(s: ThemeState, t: Theme)
    ensures DomSync(Commit(s, t), Commit(s, t).classes) == Commit(s, t)
  {
  }
}
