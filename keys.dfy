/** The remote-control key table of the keydown handler. */
module Keys {

  /** What a key press dispatches to. */
  datatype Action =
    | HideApp         // RETURN: log and hide the application
    | Play            // PLAY: resume playback
    | Stop            // STOP: pause, rewind and reload
    | Pause           // PAUSE: pause playback
    | ToggleSubtitle  // red key: show or hide the selected track
    | ToggleScreen    // Enter: toggle the screen mode
    | Unhandled       // anything else: log it

  const KeyReturn: nat := 10009
  const KeyPlay: nat := 415
  const KeyStop: nat := 413
  const KeyPause: nat := 19
  const KeyRed: nat := 403
  const KeyEnter: nat := 13

  /** The switch over `keyCode`. */
  function ActionFor(code: nat): (a: Action)
    ensures a == Unhandled <==>
      code != KeyReturn && code != KeyPlay && code != KeyStop &&
      code != KeyPause && code != KeyRed && code != KeyEnter
  {
    if code == KeyReturn then HideApp
    else if code == KeyPlay then Play
    else if code == KeyStop then Stop
    else if code == KeyPause then Pause
    else if code == KeyRed then ToggleSubtitle
    else if code == KeyEnter then ToggleScreen
    else Unhandled
  }

  /** The key code that triggers a handled action. */
  function CodeFor(a: Action): (code: nat)
    requires a != Unhandled
    ensures ActionFor(code) == a
  {
    match a
    case HideApp => KeyReturn
    case Play => KeyPlay
    case Stop => KeyStop
    case Pause => KeyPause
    case ToggleSubtitle => KeyRed
    case ToggleScreen => KeyEnter
  }

  /** Each handled code maps to its own action: no two codes share one. */
  lemma CodeForActionFor(code: nat)
    requires ActionFor(code) != Unhandled
    ensures CodeFor(ActionFor(code)) == code
  {
  }
}
