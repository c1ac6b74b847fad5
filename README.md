# PlayerHTML5Subtitle: subtitle and screen-mode controller

A Dafny model of the controller inside the Tizen TV player script
`PlayerHTML5Subtitle/main.js`. The script keeps its state in module-level
variables: the fullscreen flag, the selected track position, the subtitle menu
and the array of menu buttons. Each DOM or remote-control event runs one
handler over that state. Here that state is one object, `PlayerApp.Player`,
and every handler is a method that runs to completion:

- `BuildMenu` does the two calls of player initialisation. The item factory is
  first called with no arguments, then the menu is built: an "Off" entry
  followed by one entry per host text track.
- `SelectItem(k)` is the click handler of menu button k.
- `ToggleMenu` is the CC button.
- `ChangeScreenSize` and `ClickFullscreen` toggle the screen mode.
- `RedKey` is the red colour key.
- `HandleKey(code)` is the keydown switch.
- `Log` is the on-screen log.

Each method is proved against a step function on a value `Controller.State`:
`ensures Abstract() == AfterX(old(Abstract()))`. Each handler also keeps the
invariant `Valid()` when it held before. Apart from `BuildMenu`, a method
requires only what the code itself needs to run without throwing.
`BuildMenu` requires an unbuilt player with no buttons, because the script
calls it once, at start-up (lines 127-128). What the script promises is
proved as lemmas about those step functions and the value modules below them:

- `Subtitles`: tracks, buttons, selection, lookup by id.
- `ScreenMode`: the fullscreen flag, the three `fullscreenMode` classes, the
  menu display and the button text.
- `Keys`: the key table.
- `Logger`: the log panel.
- `Decimal`: the key code's text in the "Unhandled key" line.

`Controller.Inv` is the invariant every handler keeps. It says four things:

- The selected position is a valid index, or 0.
- Video and controls carry `fullscreenMode` exactly when fullscreen.
- The menu carries it too whenever its display is 'block'.
- Once built, the buttons are the built menu, up to their active/inactive
  states.

Quirks of the code are kept, not fixed:

- The factory call without arguments (line 127) pushes an extra button whose
  id, lang and text all read "undefined". Its list item never enters the
  document, so lookup by id never finds it, but every click still sets it
  inactive (`Subtitles.DetachedItem`, `Controller.MenuButtonAt`).
- Lookup by id returns the first button in the menu with that id
  (`Subtitles.FindFrom`). A track whose language is "off" is therefore
  shadowed by the Off entry. With two tracks in one language, the red key acts
  on the first of their buttons. `Controller.RedKeyTargetsOwnButton` states
  when the red key hits the selected track's own button.
- The red key throws when there is no track at the selected position, or when
  no button has that track's id. This is a precondition (`RedKeyReady`).
  `Controller.RedKeyReadyWhenBuilt` proves that, under the invariant, the
  button lookup fails only before the menu exists.
- Choosing Off activates the Off entry, and moves the selected position, only
  if some track has an empty language. When no track has an empty language,
  choosing Off leaves every button inactive and the selected position
  unchanged (`Controller.SelectOffActivatesNothing`,
  `Controller.SelectUpdatesIndex`).
- A click sets `selectedIndex` to the last matching track, or leaves it
  unchanged when no track matches.
- If several tracks share the chosen language, all of them are shown.
- The red key updates the active/inactive state of the button it finds, as
  well as the track's mode.
- On an empty track list the red key throws, because there is no track at
  the selected position.

`PlayerApp.SelectFrenchExample` is a worked example, not a model of a source
operation: it builds the menu over an English and a French track, selects
French, and asserts the resulting modes, buttons and position.

## Model

| member | source | states |
|---|---|---|
| `PlayerApp.Player.constructor` | PlayerHTML5Subtitle/main.js:150-151 | start-up state (with `isFull = false` of line 32): no buttons, position 0, windowed, empty log, invariant holds |
| `PlayerApp.Player.Log` | PlayerHTML5Subtitle/main.js:8-21 | a non-empty message is appended to the log, an empty or absent one clears it; nothing else changes |
| `Logger.LogLines` | PlayerHTML5Subtitle/main.js:11-18 | non-empty message: old lines kept as a prefix and the message added last; empty message: no lines |
| `PlayerApp.Player.BuildMenu` | PlayerHTML5Subtitle/main.js:188-200 | after the line-127 call, pushes Off then one entry per track, so the buttons equal `MenuButtons(tracks)`; new menu unset and unstyled; invariant kept |
| `PlayerApp.Player.AppendTrackItems` | PlayerHTML5Subtitle/main.js:196-198 | loop-proved: appends one entry per track, in host order |
| `Subtitles.ItemsFor` | PlayerHTML5Subtitle/main.js:196-198 | one entry per track in host order, entry i is the track's item |
| `Subtitles.MenuButtonsShape` | PlayerHTML5Subtitle/main.js:195-198 | |tracks| + 2 buttons: the detached one, Off (id 'subtitles-off', lang '', text 'Off'), then each track under 'subtitles-' + language with its label, all inactive |
| `Subtitles.MenuButtonsIgnoresModes` | PlayerHTML5Subtitle/main.js:196-198 | the menu depends only on the tracks' languages and labels |
| `Controller.MenuButtonAt` | PlayerHTML5Subtitle/main.js:127-128 | under the invariant button 0 is not in the menu, button 1 is Off, button i + 2 is track i's |
| `Controller.BuildKeepsInv` | PlayerHTML5Subtitle/main.js:127-128 | building from the start state yields exactly the menu buttons and keeps the invariant |
| `Subtitles.ItemIdInjective` | PlayerHTML5Subtitle/main.js:197 | two languages get the same button id exactly when they are equal |
| `Subtitles.OffIdIsItemId` | PlayerHTML5Subtitle/main.js:195-197 | the Off entry's id equals a track entry's id exactly for the language "off" |
| `PlayerApp.Player.DeactivateAll` | PlayerHTML5Subtitle/main.js:166-168 | every pushed button set inactive, loop-proved |
| `PlayerApp.Player.ShowLanguage` | PlayerHTML5Subtitle/main.js:170-180 | loop over the tracks: modes as `SelectedTracks`, clicked button active iff a match, position = last match or unchanged |
| `PlayerApp.Player.SelectItem` | PlayerHTML5Subtitle/main.js:164-182 | the click's whole new state is `AfterSelect` of the old one; invariant kept |
| `Subtitles.SelectedTracks` | PlayerHTML5Subtitle/main.js:171-180 | each track shows iff its language is the selected one, none is left disabled, languages and labels kept |
| `Subtitles.LastIndexOf` | PlayerHTML5Subtitle/main.js:171-176 | the largest position whose language matches, or none when no track matches |
| `Subtitles.Clicked` | PlayerHTML5Subtitle/main.js:166-174 | only states change; button j is active iff j is the clicked one and a track matched |
| `Controller.SelectSetsModes` | PlayerHTML5Subtitle/main.js:171-180 | after a click every track is Showing if its language is L and Hidden otherwise |
| `Controller.SelectActivatesClicked` | PlayerHTML5Subtitle/main.js:166-174 | after a click only the clicked button can be active, it is iff some track has its language, and at most one button is active |
| `Controller.SelectOffActivatesNothing` | PlayerHTML5Subtitle/main.js:166-174 | choosing Off leaves every button inactive iff no track has an empty language |
| `Controller.SelectUpdatesIndex` | PlayerHTML5Subtitle/main.js:171-181 | selected position becomes the last track in L (a valid index), or is unchanged if none; display becomes 'none' |
| `Controller.SelectKeepsInv` | PlayerHTML5Subtitle/main.js:164-182 | a click keeps the invariant |
| `Subtitles.FindFrom` | PlayerHTML5Subtitle/main.js:83 | lookup by id: the first button in the menu with the id, or none if no button in the menu has it |
| `Subtitles.FindFromIgnoresStates` | PlayerHTML5Subtitle/main.js:83-87 | lookup by id does not depend on the buttons' active/inactive states |
| `Subtitles.Toggled` | PlayerHTML5Subtitle/main.js:81-88 | red key mode: Showing becomes Hidden, any other becomes Showing; never Disabled |
| `Subtitles.ToggledTwice` | PlayerHTML5Subtitle/main.js:81-88 | two toggles restore Showing and Hidden, and turn Disabled into Hidden |
| `PlayerApp.Player.RedKey` | PlayerHTML5Subtitle/main.js:80-89 | requires the two lookups to succeed (the code throws otherwise); new state is `AfterRedKey` of the old; invariant kept |
| `Controller.RedKeyReadyWhenBuilt` | PlayerHTML5Subtitle/main.js:81-87 | under the invariant with a track at the selected position, the button lookup succeeds iff the menu was built |
| `Controller.RedKeyTouchesSelectedOnly` | PlayerHTML5Subtitle/main.js:80-89 | only the selected track and the first button with its id change: Showing → Hidden + inactive, otherwise → Showing + active; position, screen, log unchanged |
| `Controller.RedKeyTargetsOwnButton` | PlayerHTML5Subtitle/main.js:83-87 | with distinct languages and none equal to "off", the button hit is the selected track's own entry |
| `Controller.RedKeyKeepsInv` | PlayerHTML5Subtitle/main.js:80-89 | the red key keeps the invariant |
| `Controller.RedKeyStaysReady` | PlayerHTML5Subtitle/main.js:80-89 | after one press the key's lookups succeed again, on the same track and button |
| `Controller.RedKeyTwice` | PlayerHTML5Subtitle/main.js:80-89 | two presses leave a Disabled track Hidden and restore the state iff the track was Showing or Hidden and its button agreed with it |
| `ScreenMode.Flipped` | PlayerHTML5Subtitle/main.js:234-253 | flips the flag; video and controls classes equal the new flag; text 'ReturnScreen' entering, 'FullScreen' leaving; menu class touched only when display is 'block'; result always in sync |
| `ScreenMode.FlippedTwice` | PlayerHTML5Subtitle/main.js:234-253 | toggling twice restores the screen iff its classes were in sync and its text matched the mode |
| `PlayerApp.Player.ChangeScreenSize` | PlayerHTML5Subtitle/main.js:234-253 | new state is `AfterScreenChange` of the old; invariant kept |
| `PlayerApp.Player.ClickFullscreen` | PlayerHTML5Subtitle/main.js:228-231 | logs the click, then toggles the screen mode |
| `Controller.ScreenChangeKeepsInv` | PlayerHTML5Subtitle/main.js:234-253 | toggling the screen mode keeps the invariant |
| `Controller.ScreenChangeTwice` | PlayerHTML5Subtitle/main.js:234-253 | under the invariant, with the text matching the mode, toggling twice restores the whole state |
| `ScreenMode.MenuToggled` | PlayerHTML5Subtitle/main.js:201-211 | 'block' becomes 'none', anything else 'block'; menu class equals the flag whatever the new display; sync kept |
| `ScreenMode.MenuToggledTwice` | PlayerHTML5Subtitle/main.js:203 | two presses restore the display iff it had been set |
| `PlayerApp.Player.ToggleMenu` | PlayerHTML5Subtitle/main.js:201-211 | new state is `AfterMenuToggle` of the old; invariant kept |
| `Controller.MenuToggleKeepsInv` | PlayerHTML5Subtitle/main.js:201-211 | the CC button keeps the invariant |
| `Keys.ActionFor` | PlayerHTML5Subtitle/main.js:57-98 | a code is unhandled iff it is none of 10009, 415, 413, 19, 403, 13 |
| `Keys.CodeFor` | PlayerHTML5Subtitle/main.js:57-95 | every handled action has a code that dispatches to it |
| `Keys.CodeForActionFor` | PlayerHTML5Subtitle/main.js:57-95 | each handled code maps to its own action |
| `PlayerApp.Player.HandleKey` | PlayerHTML5Subtitle/main.js:56-100 | returns the dispatched action; new state is `AfterKey` of the old; invariant kept |
| `Controller.UnhandledKeyOnlyLogs` | PlayerHTML5Subtitle/main.js:96-98 | an unhandled code changes nothing but appends "Unhandled key: " + code to the log |
| `Controller.UnhandledMessageNamesCode` | PlayerHTML5Subtitle/main.js:97 | two codes give the same log line iff they are equal |
| `Controller.KeyKeepsInv` | PlayerHTML5Subtitle/main.js:57-98 | every key keeps the invariant |
| `Controller.Initial` | PlayerHTML5Subtitle/main.js:150-151 | the start-up state satisfies the invariant and has no menu |
| `Decimal.NatToString` | PlayerHTML5Subtitle/main.js:97 | the code's text is non-empty, all digits, with a leading zero only for 0 |
| `Decimal.StringToNatNatToString` | PlayerHTML5Subtitle/main.js:97 | reading the digits back gives the code |
| `Decimal.NatToStringInjective` | PlayerHTML5Subtitle/main.js:97 | different codes have different texts |

## Left out

- Tizen host calls are not modelled: key registration, hiding the application on RETURN, and the version display (main.js:37-50, 61, 106-111). RETURN appears only as the `HideApp` action.
- The playback wrappers `play`, `pause`, `stop` and `init`, and the media element itself, are not modelled (main.js:266-293). They only call the browser's media API.
- PlayerApp.Player.HandleKey: for PLAY, STOP and PAUSE the contract states only the dispatched action, because their whole effect is on the media element.
- PlayerApp.Player.BuildMenu: only the single start-up call is modelled. The precondition `!built && buttons == []` reflects how the script uses it, not a throw. A second call would run in the code and push another detached button and another menu's worth of buttons.
- PlayerApp.Player.RedKey: the exception thrown on a failed lookup is a precondition, not an outcome. When the button is missing, the code would already have changed the track's mode before throwing.
- The play, stop and pause button handlers (main.js:215-227) are not modelled. They log a line and call the media element.
- The media event listeners (main.js:132-147) are not modelled. They are host callbacks, and one logs a floating-point playback position.
- DOM construction is represented only by the button records: fragments, list items, text nodes, `innerHTML`, `className`, `value` and the menu's attachment to the page.
- `console.log` and the panel's `scrollTop` are left out. They are output only.
- The log keeps lines, not the panel's HTML string with `<br />` separators.
- Listener registration, `window.onload`, the check that the Tizen platform is present, and `onUnload` are left out (main.js:56, 298-308). Each handler is a method that the caller invokes one at a time.
- The branch where the video element has no `textTracks` (main.js:190) is not modelled. An HTML5 video element always has a track list, possibly an empty one.
- The fullscreen button's text before the first toggle is set by the page, which is not part of this model. It is a constructor parameter.
- Handlers that use `subtitlesMenu` (CC button, screen toggle, Enter key) require the menu to exist. In the code they cannot run before initialisation, and they would throw if they did.
