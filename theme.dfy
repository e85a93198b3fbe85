/**
 * The theme controller: a binary light/dark preference stored under one key
 * of the browser's local storage and applied as a class of the document body.
 */
module ThemeController {
  import opened Wrappers

  datatype Theme = Dark | Light

  /** The key the preference is stored under. */
  const StorageKey := "portfolio-theme"

  /** The two body classes the controller owns. */
  const ThemeClasses: set<string> := {"dark", "light"}

  /** The string form of a theme, used both as the stored value and as the body
      class; reading back what was written gives the same theme. */
  function Name(t: Theme): (r: string)
    ensures r in ThemeClasses
    ensures Resolve(Some(r)) == t
  {
    match t
    case Dark => "dark"
    case Light => "light"
  }

  /** The theme the toggle switches to. */
  function Opposite(t: Theme): (r: Theme)
    ensures r != t
  {
    if t == Dark then Light else Dark
  }

  /** The theme a stored value resolves to on load: `light` exactly when the
      value is present and equal to "light"; absent or any other value gives
      `dark`. */
  function Resolve(stored: Option<string>): (t: Theme)
    ensures t == Light <==> stored == Some("light")
    ensures t == Dark <==> stored != Some("light")
  {
    if stored == Some("light") then Light else Dark
  }

  /** `localStorage.getItem(StorageKey)`: `None` stands for `null`. */
  function Lookup(storage: map<string, string>): (r: Option<string>)
    ensures r.Some? <==> StorageKey in storage
    ensures r.Some? ==> r.value == storage[StorageKey]
  {
    if StorageKey in storage then Some(storage[StorageKey]) else None
  }

  /** `localStorage.setItem(StorageKey, Name(t))`: the key now holds the
      theme's name and every other key is untouched. */
  function Persist(storage: map<string, string>, t: Theme): (r: map<string, string>)
    ensures Lookup(r) == Some(Name(t))
    ensures r.Keys == storage.Keys + {StorageKey}
    ensures forall k | k in storage && k != StorageKey :: r[k] == storage[k]
  {
    storage[StorageKey := Name(t)]
  }

  /** `classList.remove('dark', 'light'); classList.add(Name(t))`: of the
      two theme classes exactly `Name(t)` remains, and the other classes are
      untouched. */
  function ApplyClass(classes: set<string>, t: Theme): (r: set<string>)
    ensures r * ThemeClasses == {Name(t)}
    ensures r - ThemeClasses == classes - ThemeClasses
  {
    (classes - ThemeClasses) + {Name(t)}
  }

  /** The body shows `t` and nothing else of the two theme classes. */
  predicate Applied(classes: set<string>, t: Theme) {
    classes * ThemeClasses == {Name(t)}
  }

  /** The value persisted by a toggle resolves to the new theme on the next
      load, whatever the storage held before. */
  lemma PersistedThemeSurvivesReload(storage: map<string, string>, t: Theme)
    ensures Resolve(Lookup(Persist(storage, t))) == t
  {
  }

  /** Toggling twice gives back the theme it started from. */
  lemma OppositeInvolutive(t: Theme)
    ensures Opposite(Opposite(t)) == t
  {
  }

  /** Without that agreement the stored value is not restored: with empty
      storage and the dark theme, two toggles leave "dark" stored. */
  lemma ToggleTwiceFromEmptyStorageWritesIt()
    ensures Persist(Persist(map[], Opposite(Dark)), Dark) != map[]
  {
    assert StorageKey in Persist(Persist(map[], Opposite(Dark)), Dark);
  }

  /** Toggling twice (theme, stored value, body classes) restores all three,
      provided the storage already held the current theme and the body already
      showed it; the load step does not write the storage, so before the first
      toggle the stored value may be absent or different. */
  lemma ToggleTwiceRestores(t: Theme, storage: map<string, string>, classes: set<string>)
    requires Lookup(storage) == Some(Name(t))
    requires Applied(classes, t)
    ensures Persist(Persist(storage, Opposite(t)), t) == storage
    ensures ApplyClass(ApplyClass(classes, Opposite(t)), t) == classes
  {
    var c := ApplyClass(ApplyClass(classes, Opposite(t)), t);
    forall x ensures x in c <==> x in classes {
      if x in ThemeClasses {
        assert x in c <==> x == Name(t);
        assert x in classes <==> x in classes * ThemeClasses;
      }
    }
  }
}
