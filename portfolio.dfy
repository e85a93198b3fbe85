/**
 * The page component's state and its event handlers. The browser's local
 * storage and the document body's class list are fields of the component;
 * scroll offsets, element geometry and observer entries are passed in.
 */
module Portfolio {
  import opened Wrappers
  import opened Text
  import opened ThemeController
  import opened Scroll
  import opened Visibility
  import opened ContactForm

  class App {
    var theme: Theme
    var activeSection: Section
    var showScrollTop: bool
    var formData: Fields
    var formErrors: Fields
    var visibleSections: set<Section>
    /** The browser's local storage. */
    var storage: map<string, string>
    /** The classes of the document body. */
    var bodyClasses: set<string>

    /** The component's initial state, over the browser's storage and body
        classes as they are when the page loads. */
    constructor (storage0: map<string, string>, bodyClasses0: set<string>)
      ensures theme == Dark && activeSection == About && !showScrollTop
      ensures formData == Empty && formErrors == Empty && visibleSections == {}
      ensures storage == storage0 && bodyClasses == bodyClasses0
    {
      theme := Dark;
      activeSection := About;
      showScrollTop := false;
      formData := Empty;
      formErrors := Empty;
      visibleSections := {};
      storage := storage0;
      bodyClasses := bodyClasses0;
    }

    /** The body shows the current theme. */
    ghost predicate ThemeShown()
      reads this
    {
      Applied(bodyClasses, theme)
    }

    /** The storage holds the current theme. */
    ghost predicate ThemeStored()
      reads this
    {
      Lookup(storage) == Some(Name(theme))
    }

    /** The theme effect on mount: resolve the stored value and apply it to the
        body; the storage is read, not written. */
    method LoadTheme()
      modifies this`theme, this`bodyClasses
      ensures theme == Resolve(Lookup(storage))
      ensures theme == Light <==> Lookup(storage) == Some("light")
      ensures bodyClasses == ApplyClass(old(bodyClasses), theme)
      ensures ThemeShown()
    {
      var savedTheme := if Lookup(storage) == Some("light") then Light else Dark;
      theme := savedTheme;
      bodyClasses := ApplyClass(bodyClasses, savedTheme);
    }

    /** Flip the theme, persist the new value and apply it to the body. */
    method ToggleTheme()
      modifies this`theme, this`storage, this`bodyClasses
      ensures theme == Opposite(old(theme))
      ensures storage == Persist(old(storage), theme)
      ensures bodyClasses == ApplyClass(old(bodyClasses), theme)
      ensures ThemeShown() && ThemeStored()
    {
      var newTheme := if theme == Dark then Light else Dark;
      theme := newTheme;
      storage := Persist(storage, newTheme);
      bodyClasses := ApplyClass(bodyClasses, newTheme);
    }

    /** Two toggles in a row leave the theme, the storage and the body as they
        were, once the storage and the body agree with the theme. */
    method ToggleThemeTwice()
      requires ThemeShown() && ThemeStored()
      modifies this`theme, this`storage, this`bodyClasses
      ensures theme == old(theme) && storage == old(storage) && bodyClasses == old(bodyClasses)
    {
      OppositeInvolutive(theme);
      ToggleTwiceRestores(theme, storage, bodyClasses);
      ToggleTheme();
      ToggleTheme();
    }

    /** The scroll handler, also run once on mount: show the scroll-to-top
        button past the threshold, and make the first section in order whose
        element exists and holds the probe point `scrollY + 100` active,
        keeping the previous active section when none does. */
    method HandleScroll(scrollY: int, layout: Layout)
      modifies this`showScrollTop, this`activeSection
      ensures showScrollTop == (scrollY > ScrollTopThreshold)
      ensures activeSection == NextActive(old(activeSection), layout, scrollY)
    {
      showScrollTop := scrollY > ScrollTopThreshold;
      var sections := Order;
      var scrollPosition := scrollY + ProbeOffset;
      var i := 0;
      while i < |sections|
        invariant 0 <= i <= |sections|
        invariant forall j | 0 <= j < i :: !Hits(layout, sections[j], scrollPosition)
        invariant activeSection == old(activeSection)
      {
        var section := sections[i];
        if section in layout {
          var element := layout[section];
          if scrollPosition >= element.offsetTop && scrollPosition < element.offsetTop + element.offsetHeight {
            FirstHitUnique(sections, layout, scrollPosition, i);
            activeSection := section;
            break;
          }
        }
        i := i + 1;
      }
    }

    /** The effects run on mount, in order: load the theme, then run the
        scroll handler once to set the initial scroll state. */
    method Mount(scrollY: int, layout: Layout)
      modifies this`theme, this`bodyClasses, this`showScrollTop, this`activeSection
      ensures theme == Resolve(Lookup(storage)) && ThemeShown()
      ensures bodyClasses == ApplyClass(old(bodyClasses), theme)
      ensures showScrollTop == (scrollY > ScrollTopThreshold)
      ensures activeSection == NextActive(old(activeSection), layout, scrollY)
    {
      LoadTheme();
      HandleScroll(scrollY, layout);
    }

    /** The intersection-observer callback: every intersecting entry's target
        joins the visible sections; nothing leaves. */
    method ObserveEntries(entries: seq<Entry>)
      modifies this`visibleSections
      ensures visibleSections == old(visibleSections) + IntersectingTargets(entries)
      ensures old(visibleSections) <= visibleSections
    {
      for i := 0 to |entries|
        invariant visibleSections == old(visibleSections) + IntersectingTargets(entries[..i])
      {
        var entry := entries[i];
        if entry.isIntersecting {
          visibleSections := Add(visibleSections, entry.target);
        }
        assert entries[..i + 1][..i] == entries[..i];
      }
      assert entries[..|entries|] == entries;
    }

    /** An input's change handler: replace one field of the form data; the
        errors are left as they are until the next submit. */
    method Edit(field: Field, value: string)
      modifies this`formData
      ensures field == NameField ==> formData == old(formData).(name := value)
      ensures field == EmailField ==> formData == old(formData).(email := value)
      ensures field == MessageField ==> formData == old(formData).(message := value)
    {
      match field
      case NameField => formData := formData.(name := value);
      case EmailField => formData := formData.(email := value);
      case MessageField => formData := formData.(message := value);
    }

    /** Check all three fields, store the errors and report whether there
        were none. */
    method ValidateForm() returns (isValid: bool)
      modifies this`formErrors
      ensures formErrors == ExpectedErrors(formData)
      ensures isValid <==> formErrors == Empty
    {
      var errors := Empty;
      isValid := true;

      TrimEmptyIffBlank(formData.name);
      if Trim(formData.name) == [] {
        errors := errors.(name := NameRequired);
        isValid := false;
      }

      TrimEmptyIffBlank(formData.email);
      EmailTestMatchesPattern(formData.email);
      if Trim(formData.email) == [] {
        errors := errors.(email := EmailRequired);
        isValid := false;
      } else if !EmailTest(formData.email) {
        errors := errors.(email := InvalidEmail);
        isValid := false;
      }

      TrimEmptyIffBlank(formData.message);
      if Trim(formData.message) == [] {
        errors := errors.(message := MessageRequired);
        isValid := false;
      }

      formErrors := errors;
    }

    /** The submit handler: validate; on success acknowledge and clear both
        the data and the errors, otherwise keep the data and show the errors. */
    method HandleSubmit() returns (acknowledged: bool)
      modifies this`formErrors, this`formData
      ensures acknowledged <==> ExpectedErrors(old(formData)) == Empty
      ensures acknowledged ==> formData == Empty && formErrors == Empty
      ensures !acknowledged ==> formData == old(formData) && formErrors == ExpectedErrors(old(formData))
    {
      acknowledged := ValidateForm();
      if acknowledged {
        formData := Empty;
        formErrors := Empty;
      }
    }
  }
}
