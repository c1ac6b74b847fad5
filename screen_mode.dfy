/** The screen-mode toggle and the subtitle menu's visibility, as values. */
module ScreenMode {

  /** The menu's `style.display`: never set, 'block' or 'none'. */
  datatype Display = Unset | Block | NoDisplay

  /** The fullscreen flag, the `fullscreenMode` class on the video, the controls
      and the subtitle menu, the menu's display and the fullscreen button's text. */
  datatype Screen = Screen(
    isFull: bool,
    videoFull: bool,
    controlsFull: bool,
    menuFull: bool,
    display: Display,
    buttonText: string)

  const EnterLabel: string := "FullScreen"
  const ReturnLabel: string := "ReturnScreen"

  /** The button text that goes with a screen mode. */
  function LabelFor(full: bool): string {
    if full then ReturnLabel else EnterLabel
  }

  /** Video and controls carry the class exactly when fullscreen; so does the
      menu whenever it is shown. */
  predicate InSync(s: Screen) {
    s.videoFull == s.isFull && s.controlsFull == s.isFull &&
    (s.display == Block ==> s.menuFull == s.isFull)
  }

  /** `changeScreenSize`: the two-state toggle. */
  function Flipped(s: Screen): (r: Screen)
    ensures r.isFull == !s.isFull
    ensures r.videoFull == r.isFull && r.controlsFull == r.isFull
    ensures r.buttonText == LabelFor(r.isFull)
    ensures r.display == s.display
    ensures s.display != Block ==> r.menuFull == s.menuFull
    ensures InSync(r)
  {
    if !s.isFull then
      s.(menuFull := if s.display == Block then true else s.menuFull,
         videoFull := true, controlsFull := true, isFull := true, buttonText := ReturnLabel)
    else
      s.(menuFull := if s.display == Block then false else s.menuFull,
         videoFull := false, controlsFull := false, isFull := false, buttonText := EnterLabel)
  }

  /** Toggling twice gives back the screen exactly when its classes were in sync
      and its label matched the mode. */
  lemma FlippedTwice(s: Screen)
    ensures Flipped(Flipped(s)) == s <==> InSync(s) && s.buttonText == LabelFor(s.isFull)
  {
  }

  /** The CC button: 'block' becomes 'none', anything else 'block'; the menu's
      class then follows the fullscreen flag whatever the new display. */
  function MenuToggled(s: Screen): (r: Screen)
    ensures r.display == (if s.display == Block then NoDisplay else Block)
    ensures r.menuFull == s.isFull
    ensures r.isFull == s.isFull && r.videoFull == s.videoFull
    ensures r.controlsFull == s.controlsFull && r.buttonText == s.buttonText
    ensures InSync(s) ==> InSync(r)
  {
    s.(display := if s.display == Block then NoDisplay else Block, menuFull := s.isFull)
  }

  /** Two presses restore the display unless it had never been set. */
  lemma MenuToggledTwice(s: Screen)
    ensures MenuToggled(MenuToggled(s)).display == s.display <==> s.display != Unset
  {
  }
}
