/** The application store: a loading flag, the colour theme and the locale. */
module AppStore {

  datatype Theme = Light | Dark
  datatype Locale = ZhCN | EnUS

  /** `currentTheme === 'light' ? 'dark' : 'light'`: toggling always changes the theme. */
  function Toggled(theme: Theme): (r: Theme)
    ensures r != theme
  {
    if theme == Light then Dark else Light
  }

  /** Toggling twice is the identity. */
  lemma ToggleTwice(theme: Theme)
    ensures Toggled(Toggled(theme)) == theme
  {
  }

  class AppStore {
    var loading: bool
    var theme: Theme
    var locale: Locale

    constructor ()
      ensures !loading && theme == Light && locale == ZhCN
    {
      loading, theme, locale := false, Light, ZhCN;
    }

    method SetLoading(value: bool)
      modifies this
      ensures loading == value && theme == old(theme) && locale == old(locale)
    {
      loading := value;
    }

    /** Afterwards the theme is `value`, so a second call changes nothing. */
    method SetTheme(value: Theme)
      modifies this
      ensures theme == value && loading == old(loading) && locale == old(locale)
    {
      theme := value;
    }

    method SetLocale(value: Locale)
      modifies this
      ensures locale == value && loading == old(loading) && theme == old(theme)
    {
      locale := value;
    }

    method ToggleTheme()
      modifies this
      ensures theme == Toggled(old(theme)) && loading == old(loading) && locale == old(locale)
    {
      var current := theme;
      theme := if current == Light then Dark else Light;
    }
  }
}
