/**
 * The light/dark theme switch of the page (script.js:1-39): the theme
 * names, the label shown on the toggle icon and the rule the toggle
 * button applies on each click.
 */
module Theme {

  const Light := "light"
  const Dark := "dark"

  /** The icon text for a theme: only the exact name "dark" reads as DARK. */
  function Label(theme: string): (text: string)
    ensures text == "DARK" <==> theme == Dark
    ensures text == "DARK" || text == "LIGHT"
  {
    if theme == Dark then "DARK" else "LIGHT"
  }

  /**
   * The theme a click on the toggle switches to: away from "dark" goes
   * to "light", and every other value (including an unknown one) goes
   * to "dark".
   */
  function Flipped(theme: string): (next: string)
    ensures next == Dark <==> theme != Dark
    ensures next == Light <==> theme == Dark
    ensures next != theme
  {
    if theme == Dark then Light else Dark
  }

  /** Two clicks restore either of the two known themes. */
  lemma FlipTwiceRestores(theme: string)
    requires theme == Light || theme == Dark
    ensures Flipped(Flipped(theme)) == theme
  {
  }

  /** Two clicks from any other value land on "light", not on the original. */
  lemma FlipTwiceFromUnknown(theme: string)
    requires theme != Light && theme != Dark
    ensures Flipped(Flipped(theme)) == Light != theme
  {
  }
}
