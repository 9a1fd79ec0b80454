/**
 * The site header of app/Header.jsx: the theme toggle, the navigation list
 * and the mobile menu switch.
 */
module Header {
  import opened Wrappers

  /** `handleThemeToggle`: dark goes to light, light to system, and any other
      value, including none, to dark. */
  function NextTheme(theme: Option<string>): (t: string)
    ensures theme == Some("dark") ==> t == "light"
    ensures theme == Some("light") ==> t == "system"
    ensures theme != Some("dark") && theme != Some("light") ==> t == "dark"
  {
    if theme == Some("dark") then "light"
    else if theme == Some("light") then "system"
    else "dark"
  }

  /** Three presses bring each of the three themes back, and from any other
      value two presses reach light. */
  lemma ThemeCycle(theme: Option<string>)
    ensures theme in {Some("dark"), Some("light"), Some("system")} ==>
      Some(NextTheme(Some(NextTheme(Some(NextTheme(theme)))))) == theme
    ensures theme !in {Some("dark"), Some("light"), Some("system")} ==>
      NextTheme(Some(NextTheme(theme))) == "light"
  {
  }

  datatype NavItem = NavItem(href: string, title: string, isPrimary: bool)

  const NavigationItems: seq<NavItem> := [
    NavItem("/", "Dashboard", true),
    NavItem("/add-content", "Add Content", false),
    NavItem("/analytics", "Analytics", false),
    NavItem("/settings", "Settings", false)]

  /** Four entries, and only the dashboard link is primary. */
  lemma NavigationShape()
    ensures |NavigationItems| == 4
    ensures forall i | 0 <= i < 4 :: NavigationItems[i].isPrimary <==> NavigationItems[i].title == "Dashboard"
    ensures forall i | 0 <= i < 4 :: NavigationItems[i].isPrimary <==> i == 0
  {
  }

  class HeaderState {
    var mobileMenuOpen: bool
    var theme: Option<string>

    constructor (initialTheme: Option<string>)
      ensures !mobileMenuOpen && theme == initialTheme
    {
      mobileMenuOpen := false;
      theme := initialTheme;
    }

    /** The mobile menu button. */
    method ToggleMenu()
      modifies this
      ensures mobileMenuOpen == !old(mobileMenuOpen) && theme == old(theme)
    {
      mobileMenuOpen := !mobileMenuOpen;
    }

    /** The theme button. */
    method ToggleTheme()
      modifies this
      ensures theme == Some(NextTheme(old(theme))) && mobileMenuOpen == old(mobileMenuOpen)
    {
      theme := Some(NextTheme(theme));
    }
  }
}
