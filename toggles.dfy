/**
 * The two click handlers that keep state: each card's "View Details"
 * button, and the page's dark-mode button with its stored preference.
 */
module Toggles {

  datatype Option<T> = None | Some(value: T)

  /** The details button's text for a panel that is (or is not) shown. */
  function DetailsLabel(shown: bool): (r: string)
    ensures r == "Hide Details" <==> shown
    ensures r == "View Details" <==> !shown
  {
    if shown then "Hide Details" else "View Details"
  }

  /**
   * One user card: `shown` is the `show` class of its details panel,
   * `active` the `active` class of its button, `buttonText` the button's text.
   */
  class DetailsCard {
    var shown: bool
    var active: bool
    var buttonText: string

    ghost predicate Valid()
      reads this
    {
      active == shown && buttonText == DetailsLabel(shown)
    }

    /** A freshly rendered card: panel collapsed, label "View Details". */
    constructor ()
      ensures Valid()
      ensures !shown && !active && buttonText == "View Details"
    {
      shown, active, buttonText := false, false, "View Details";
    }

    /** A click: both classes flip and the label follows the panel's new state. */
    method Activate()
      requires Valid()
      modifies this
      ensures Valid()
      ensures shown == !old(shown) && active == !old(active)
      ensures buttonText == DetailsLabel(shown)
    {
      shown := !shown;
      active := !active;
      buttonText := DetailsLabel(shown);
    }
  }

  /** Two clicks on a card bring it back to where it was. */
  method ActivateTwice(card: DetailsCard)
    requires card.Valid()
    modifies card
    ensures card.Valid()
    ensures card.shown == old(card.shown) && card.active == old(card.active) && card.buttonText == old(card.buttonText)
  {
    card.Activate();
    card.Activate();
  }

  /** A click on one card of the page leaves every other card as it was. */
  method ActivateOne(cards: seq<DetailsCard>, i: nat)
    requires i < |cards|
    requires cards[i].Valid()
    modifies cards[i]
    ensures cards[i].shown == !old(cards[i].shown)
    ensures forall j :: 0 <= j < |cards| && cards[j] != cards[i] ==>
              cards[j].shown == old(cards[j].shown) && cards[j].buttonText == old(cards[j].buttonText)
  {
    cards[i].Activate();
  }

  /** The dark-mode button's text in each mode. */
  function ModeLabel(isDark: bool): (r: string)
    ensures r == "Light Mode" <==> isDark
    ensures r == "Dark Mode" <==> !isDark
  {
    if isDark then "Light Mode" else "Dark Mode"
  }

  /** What `localStorage.setItem` stores for a boolean: its string form. */
  function StoredText(isDark: bool): (r: string)
    ensures r == "true" <==> isDark
    ensures r == "false" <==> !isDark
  {
    if isDark then "true" else "false"
  }

  /** The startup rule: dark only if the stored item is exactly the string "true". */
  function StartsDark(item: Option<string>): (r: bool)
    ensures r ==> item.Some? && item.value == "true"
    ensures item == Some("true") ==> r
  {
    item.Some? && item.value == "true"
  }

  /** Whatever a click stores, the next startup reads back as the same mode. */
  lemma PreferenceRoundTrip(isDark: bool)
    ensures StartsDark(Some(StoredText(isDark))) == isDark
  {
  }

  /**
   * The page's display mode: `dark` is the `dark-mode` class of the body,
   * `buttonText` the button's text, `stored` the `darkMode` item of local
   * storage (`None` when absent).
   */
  class DarkModeToggle {
    var dark: bool
    var buttonText: string
    var stored: Option<string>

    /** The state a click leaves: the label and the stored item both follow the mode. */
    ghost predicate Persisted()
      reads this
    {
      buttonText == ModeLabel(dark) && stored == Some(StoredText(dark))
    }

    /**
     * Page start: the stored item decides the mode; the label changes to
     * "Light Mode" only in dark mode, and otherwise keeps the page's own text.
     */
    constructor Startup(item: Option<string>, initialLabel: string)
      ensures dark == StartsDark(item) && stored == item
      ensures buttonText == if dark then "Light Mode" else initialLabel
      ensures initialLabel == "Dark Mode" ==> buttonText == ModeLabel(dark)
    {
      dark, buttonText, stored := false, initialLabel, item;
      if item == Some("true") {
        dark := true;
        buttonText := ModeLabel(true);
      }
    }

    /** A click: flip the mode, relabel from the new mode, store it. */
    method Activate()
      modifies this
      ensures dark == !old(dark)
      ensures buttonText == ModeLabel(dark)
      ensures stored == Some(StoredText(dark))
      ensures Persisted()
    {
      dark := !dark;
      buttonText := ModeLabel(dark);
      stored := Some(StoredText(dark));
    }

    /** A reload after a click restores the same mode, and its label when dark. */
    method Reload(initialLabel: string) returns (page: DarkModeToggle)
      requires Persisted()
      ensures fresh(page)
      ensures page.dark == dark && page.stored == stored
      ensures dark ==> page.buttonText == buttonText
    {
      PreferenceRoundTrip(dark);
      page := new DarkModeToggle.Startup(stored, initialLabel);
    }
  }
}
