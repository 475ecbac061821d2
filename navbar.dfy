/**
 * The theme switch in the navigation bar. The page starts light; on mount
 * it turns dark when the stored theme says so, or when nothing is stored
 * and the system prefers dark. The toggle flips the theme, stores the
 * choice and sets or removes the `data-theme` attribute of the document
 * element. Browser storage and the element's attributes are maps.
 */
module Navbar {
  import opened Wrappers

  const ThemeKey: string := "theme"
  const ThemeAttribute: string := "data-theme"

  /** `localStorage.getItem('theme')`: the stored value, or null. */
  function SavedTheme(storage: map<string, string>): (r: Option<string>)
    ensures r.Some? <==> ThemeKey in storage
  {
    if ThemeKey in storage then Some(storage[ThemeKey]) else None
  }

  /** The mount-time test `savedTheme === 'dark' || (!savedTheme && prefersDark)`;
      both null and the empty string count as nothing stored. */
  predicate StartsDark(storage: map<string, string>, prefersDark: bool)
  {
    var saved := SavedTheme(storage);
    saved == Some("dark") || ((saved.None? || saved == Some("")) && prefersDark)
  }

  /** The attributes after the toggle's write: `data-theme="dark"` when
      dark, no `data-theme` at all otherwise. */
  function WithTheme(attributes: map<string, string>, dark: bool): (r: map<string, string>)
    ensures ThemeAttribute in r <==> dark
    ensures dark ==> r[ThemeAttribute] == "dark"
    ensures forall k | k != ThemeAttribute :: (k in r <==> k in attributes)
    ensures forall k | k != ThemeAttribute && k in r :: r[k] == attributes[k]
  {
    if dark then attributes[ThemeAttribute := "dark"] else attributes - {ThemeAttribute}
  }

  /** The storage after the toggle's write. */
  function WithStoredTheme(storage: map<string, string>, dark: bool): (r: map<string, string>)
    ensures SavedTheme(r) == Some(if dark then "dark" else "light")
    ensures forall k | k != ThemeKey :: (k in r <==> k in storage)
    ensures forall k | k != ThemeKey && k in r :: r[k] == storage[k]
  {
    storage[ThemeKey := if dark then "dark" else "light"]
  }

  /** A stored 'light' keeps the page light whatever the system prefers. */
  lemma StoredLightWins(storage: map<string, string>, prefersDark: bool)
    requires SavedTheme(storage) == Some("light")
    ensures !StartsDark(storage, prefersDark)
  {
  }

  /** With nothing stored the system preference decides. */
  lemma NothingStoredFollowsSystem(storage: map<string, string>, prefersDark: bool)
    requires ThemeKey !in storage
    ensures StartsDark(storage, prefersDark) <==> prefersDark
  {
  }

  /** What a toggle stores is what the next visit starts with, whatever
      the system prefers. */
  lemma StoredChoiceIsRestored(storage: map<string, string>, dark: bool, prefersDark: bool)
    ensures StartsDark(WithStoredTheme(storage, dark), prefersDark) <==> dark
  {
    assert SavedTheme(WithStoredTheme(storage, dark)) == Some(if dark then "dark" else "light");
  }

  /** Writing the attribute twice: the last write decides. */
  lemma {:induction false} LastThemeWins(attributes: map<string, string>, first: bool, second: bool)
    ensures WithTheme(WithTheme(attributes, first), second) == WithTheme(attributes, second)
  {
    var a, b := WithTheme(WithTheme(attributes, first), second), WithTheme(attributes, second);
    assert a.Keys == b.Keys;
    assert forall k | k in a :: a[k] == b[k];
  }

  class NavbarState {
    var isDark: bool
    var storage: map<string, string>
    var attributes: map<string, string>

    /** `useState(false)`: light, whatever the browser holds. */
    constructor (storage: map<string, string>, attributes: map<string, string>)
      ensures !isDark && this.storage == storage && this.attributes == attributes
    {
      isDark := false;
      this.storage := storage;
      this.attributes := attributes;
    }

    /** The mount effect: it only ever turns the page dark, and it never
        writes to storage. */
    method InitTheme(prefersDark: bool)
      modifies this
      ensures storage == old(storage)
      ensures StartsDark(storage, prefersDark) ==>
                isDark && attributes == old(attributes)[ThemeAttribute := "dark"]
      ensures !StartsDark(storage, prefersDark) ==>
                isDark == old(isDark) && attributes == old(attributes)
    {
      var saved := if ThemeKey in storage then Some(storage[ThemeKey]) else None;
      if saved == Some("dark") || ((saved.None? || saved == Some("")) && prefersDark) {
        isDark := true;
        attributes := attributes[ThemeAttribute := "dark"];
      }
    }

    /** `toggleTheme`: flip, then write the attribute and the storage to
        match the new theme. */
    method ToggleTheme()
      modifies this
      ensures isDark == !old(isDark)
      ensures attributes == WithTheme(old(attributes), isDark)
      ensures storage == WithStoredTheme(old(storage), isDark)
    {
      var newTheme := !isDark;
      isDark := newTheme;
      if newTheme {
        attributes := attributes[ThemeAttribute := "dark"];
        storage := storage[ThemeKey := "dark"];
      } else {
        attributes := attributes - {ThemeAttribute};
        storage := storage[ThemeKey := "light"];
      }
    }
  }
}
