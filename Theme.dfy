/** The theme toggle: the body's class attribute and the `site-theme` entry of
    local storage. */
module Theme {
  import opened Options
  import ClassList

  const Light: string := "light"
  const Dark: string := "dark"

  /** The class the body has after start-up: a saved theme replaces the class
      from the markup; an absent or empty saved value (both falsy) does not. */
  function Restore(markupClass: string, saved: Option<string>): (className: string)
    ensures saved.Some? && saved.value != "" ==> className == saved.value
    ensures saved == None || saved == Some("") ==> className == markupClass
  {
    if saved.Some? && saved.value != "" then saved.value else markupClass
  }

  /** The theme a click switches to: `dark` exactly when `light` is one of the
      body's classes (read as whitespace-delimited tokens), `light` otherwise. */
  function NextTheme(className: string): (next: string)
    ensures next == Light || next == Dark
    ensures next == Dark <==> ClassList.Delimited(className, Light)
  {
    if ClassList.Contains(className, Light) then Dark else Light
  }

  /** A body whose class is exactly `light` becomes `dark`, and back. */
  lemma {:induction false} ToggleFlips()
    ensures NextTheme(Light) == Dark
    ensures NextTheme(Dark) == Light
  {
    ClassList.SingleToken(Light);
    ClassList.SingleToken(Dark);
  }

  /** Two toggles starting from `light` or `dark` restore it. */
  lemma ToggleTwiceRestores(c: string)
    requires c == Light || c == Dark
    ensures NextTheme(NextTheme(c)) == c
  {
    ToggleFlips();
  }

  /** From the first toggle on, every toggle changes the theme. */
  lemma ToggleAlwaysChangesAfterFirst(className: string)
    ensures NextTheme(NextTheme(className)) != NextTheme(className)
  {
    ToggleFlips();
  }

  /** What a toggle stores is what a later page load restores, whatever the
      markup says. */
  lemma ReloadKeepsToggledTheme(className: string, markupClass: string)
    ensures Restore(markupClass, Some(NextTheme(className))) == NextTheme(className)
  {
  }

  /** The document body together with the stored theme preference. */
  class Page {
    var className: string      // `document.body.className`
    var stored: Option<string> // `localStorage.getItem('site-theme')`

    /** The body class and the stored value agree. */
    ghost predicate Synced()
      reads this
    {
      stored == Some(className)
    }

    /** Start-up: the saved value, if truthy, becomes the body class. */
    constructor Load(markupClass: string, saved: Option<string>)
      ensures stored == saved
      ensures className == Restore(markupClass, saved)
      ensures saved.Some? && saved.value != "" ==> Synced()
    {
      stored := saved;
      className := Restore(markupClass, saved);
    }

    /** A click on `#themeToggle`. */
    method Toggle()
      modifies this
      ensures className == NextTheme(old(className))
      ensures Synced()
    {
      var next := NextTheme(className);
      className := next;
      stored := Some(next);
    }
  }
}
