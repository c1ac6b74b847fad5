/** The subtitle and screen-mode controller as a value: its whole state, one
    step function per event handler, the invariant the handlers keep, and what
    each handler guarantees. */
module Controller {
  import opened Subtitles
  import opened ScreenMode
  import opened Keys
  import opened Logger
  import opened Decimal

  /** Host tracks, the pushed menu buttons, the selected track position, whether
      the menu exists yet, the screen-mode state and the log panel. */
  datatype State = State(
    tracks: seq<Track>,
    buttons: seq<Button>,
    selected: nat,
    built: bool,
    screen: Screen,
    log: seq<string>)

  /** The buttons are the menu built for these tracks, up to their states. */
  ghost predicate MenuMatches(bs: seq<Button>, t: seq<Track>) {
    var m := MenuButtons(t);
    |bs| == |m| && forall j :: 0 <= j < |bs| ==> Shape(bs[j]) == m[j]
  }

  /** Under the invariant, button 0 is the detached one, button 1 the Off entry
      and button i + 2 the entry of track i. */
  lemma MenuButtonAt(s: State, j: nat)
    requires Inv(s) && s.built && j < |s.tracks| + 2
    ensures |s.buttons| == |s.tracks| + 2
    ensures j == 0 ==> !s.buttons[0].inMenu
    ensures j == 1 ==> s.buttons[1].id == OffId && s.buttons[1].lang == "" && s.buttons[1].inMenu
    ensures j >= 2 ==>
      s.buttons[j].id == ItemId(s.tracks[j - 2].language) &&
      s.buttons[j].lang == s.tracks[j - 2].language && s.buttons[j].inMenu
  {
  }

  /** The controller's invariant. */
  ghost predicate Inv(s: State) {
    (s.selected < |s.tracks| || s.selected == 0) &&
    InSync(s.screen) &&
    (if s.built then MenuMatches(s.buttons, s.tracks) else s.buttons == [])
  }

  /** The state at start-up: nothing selected beyond position 0, windowed, no
      menu, an empty log; the fullscreen button's text comes from the page. */
  function Initial(t: seq<Track>, buttonText: string): (s: State)
    ensures Inv(s) && !s.built
  {
    State(t, [], 0, false, Screen(false, false, false, false, Unset, buttonText), [])
  }

  // ---- Building the menu ----

  /** The two item-factory calls of player initialisation: the call without
      arguments, then the menu with the Off entry and one entry per track. The
      new menu is neither displayed nor styled. */
  function AfterBuild(s: State): State {
    s.(buttons := s.buttons + MenuButtons(s.tracks), built := true,
       screen := s.screen.(display := Unset, menuFull := false))
  }

  lemma BuildKeepsInv(s: State)
    requires Inv(s) && !s.built
    ensures Inv(AfterBuild(s)) && AfterBuild(s).buttons == MenuButtons(s.tracks)
  {
  }

  // ---- Selecting a menu entry ----

  /** The click handler of button k. */
  function AfterSelect(s: State, k: nat): State
    requires k < |s.buttons|
  {
    var lang := s.buttons[k].lang;
    var last := LastIndexOf(s.tracks, lang);
    s.(tracks := SelectedTracks(s.tracks, lang),
       buttons := Clicked(s.buttons, k, last.Some?),
       selected := if last.Some? then last.value else s.selected,
       screen := s.screen.(display := NoDisplay))
  }

  /** Selecting an entry whose language is L shows exactly the tracks in L and
      hides every other one; no track stays disabled. */
  lemma SelectSetsModes(s: State, k: nat)
    requires k < |s.buttons|
    ensures var r := AfterSelect(s, k);
      SameCatalog(s.tracks, r.tracks) &&
      forall i :: 0 <= i < |r.tracks| ==>
        r.tracks[i].mode == (if s.tracks[i].language == s.buttons[k].lang then Showing else Hidden)
  {
  }

  /** After a selection only the clicked button can be active, and it is active
      exactly when some track has its language; so at most one is active. */
  lemma SelectActivatesClicked(s: State, k: nat)
    requires k < |s.buttons|
    ensures var r := AfterSelect(s, k);
      |r.buttons| == |s.buttons| &&
      (forall j :: 0 <= j < |r.buttons| ==>
         (r.buttons[j].state == Active <==> j == k && HasLanguage(s.tracks, s.buttons[k].lang))) &&
      (forall a, b :: 0 <= a < b < |r.buttons| ==> !(r.buttons[a].state == Active && r.buttons[b].state == Active))
  {
  }

  /** Choosing Off leaves every button inactive unless some track has an empty
      language. */
  lemma SelectOffActivatesNothing(s: State)
    requires Inv(s) && s.built
    ensures |s.buttons| > 1
    ensures var r := AfterSelect(s, 1);
      (forall j :: 0 <= j < |r.buttons| ==> r.buttons[j].state == Inactive) <==> !HasLanguage(s.tracks, "")
  {
    MenuButtonAt(s, 1);
    SelectActivatesClicked(s, 1);
    var r := AfterSelect(s, 1);
    if HasLanguage(s.tracks, "") {
      assert r.buttons[1].state == Active;
    }
  }

  /** The selected position becomes the last track in the clicked language, or
      stays as it was when none matches; the menu is hidden. */
  lemma SelectUpdatesIndex(s: State, k: nat)
    requires k < |s.buttons|
    ensures var r := AfterSelect(s, k); var lang := s.buttons[k].lang;
      (HasLanguage(s.tracks, lang) ==>
         r.selected < |s.tracks| && s.tracks[r.selected].language == lang &&
         forall i :: r.selected < i < |s.tracks| ==> s.tracks[i].language != lang) &&
      (!HasLanguage(s.tracks, lang) ==> r.selected == s.selected) &&
      r.screen.display == NoDisplay
  {
  }

  lemma SelectKeepsInv(s: State, k: nat)
    requires Inv(s) && k < |s.buttons|
    ensures Inv(AfterSelect(s, k))
  {
  }

  // ---- The red key ----

  /** The red key's lookups succeed: a track at the selected position and a
      button in the menu under that track's id. Otherwise the handler throws. */
  predicate RedKeyReady(s: State) {
    s.selected < |s.tracks| && FindById(s.buttons, ItemId(s.tracks[s.selected].language)).Some?
  }

  /** The red key: toggle the selected track's mode and set the state of the
      first button under its id to match. */
  function AfterRedKey(s: State): State
    requires RedKeyReady(s)
  {
    var tr := s.tracks[s.selected];
    var j := FindById(s.buttons, ItemId(tr.language)).value;
    var m := Toggled(tr.mode);
    s.(tracks := s.tracks[s.selected := tr.(mode := m)],
       buttons := s.buttons[j := s.buttons[j].(state := StateFor(m))])
  }

  /** With the invariant, the button lookup fails only before the menu exists:
      only an empty track list or an uninitialised player make the key throw. */
  lemma RedKeyReadyWhenBuilt(s: State)
    requires Inv(s) && s.selected < |s.tracks|
    ensures RedKeyReady(s) <==> s.built
  {
    if s.built {
      var i := s.selected;
      MenuButtonAt(s, i + 2);
      assert Matches(s.buttons[i + 2], ItemId(s.tracks[i].language));
    }
  }

  /** The red key changes the selected track and one button and nothing else: a
      showing track becomes hidden and the button inactive, any other mode
      becomes showing and the button active. */
  lemma RedKeyTouchesSelectedOnly(s: State)
    requires RedKeyReady(s)
    ensures var r := AfterRedKey(s); var tr := s.tracks[s.selected];
      var j := FindById(s.buttons, ItemId(tr.language)).value;
      r.selected == s.selected && r.screen == s.screen && r.log == s.log && r.built == s.built &&
      |r.tracks| == |s.tracks| && |r.buttons| == |s.buttons| &&
      (forall i :: 0 <= i < |s.tracks| && i != s.selected ==> r.tracks[i] == s.tracks[i]) &&
      (forall b :: 0 <= b < |s.buttons| && b != j ==> r.buttons[b] == s.buttons[b]) &&
      SameCatalog(s.tracks, r.tracks) && Shape(r.buttons[j]) == Shape(s.buttons[j]) &&
      (tr.mode == Showing ==> r.tracks[s.selected].mode == Hidden && r.buttons[j].state == Inactive) &&
      (tr.mode != Showing ==> r.tracks[s.selected].mode == Showing && r.buttons[j].state == Active)
  {
  }

  /** With distinct languages, and no track in the language "off", the red key
      acts on the selected track's own button. */
  lemma RedKeyTargetsOwnButton(s: State)
    requires Inv(s) && s.built && s.selected < |s.tracks|
    requires forall a, b :: 0 <= a < b < |s.tracks| ==> s.tracks[a].language != s.tracks[b].language
    requires s.tracks[s.selected].language != "off"
    ensures FindById(s.buttons, ItemId(s.tracks[s.selected].language)) == Some(s.selected + 2)
  {
    var lang := s.tracks[s.selected].language;
    var id := ItemId(lang);
    forall j | 0 <= j < s.selected + 2
      ensures !Matches(s.buttons[j], id)
    {
      MenuButtonAt(s, j);
      if j == 1 {
        OffIdIsItemId(lang);
      } else if j > 1 {
        ItemIdInjective(s.tracks[j - 2].language, lang);
      }
    }
    MenuButtonAt(s, s.selected + 2);
    assert Matches(s.buttons[s.selected + 2], id);
  }

  lemma RedKeyKeepsInv(s: State)
    requires Inv(s) && RedKeyReady(s)
    ensures Inv(AfterRedKey(s))
  {
  }

  /** After one press the key is ready again, on the same track and button. */
  lemma RedKeyStaysReady(s: State)
    requires RedKeyReady(s)
    ensures RedKeyReady(AfterRedKey(s))
    ensures var r := AfterRedKey(s);
      r.tracks[r.selected].language == s.tracks[s.selected].language &&
      FindById(r.buttons, ItemId(r.tracks[r.selected].language)) == FindById(s.buttons, ItemId(s.tracks[s.selected].language))
  {
    var r := AfterRedKey(s);
    var id := ItemId(s.tracks[s.selected].language);
    FindFromIgnoresStates(s.buttons, r.buttons, id, 0);
  }

  /** Pressing twice restores the state exactly when the track was showing or
      hidden and its button's state agreed with that mode; a disabled track ends
      hidden. */
  lemma RedKeyTwice(s: State)
    requires RedKeyReady(s)
    ensures RedKeyReady(AfterRedKey(s))
    ensures var tr := s.tracks[s.selected]; var j := FindById(s.buttons, ItemId(tr.language)).value;
      var r := AfterRedKey(AfterRedKey(s));
      r.tracks[s.selected].mode == (if tr.mode == Disabled then Hidden else tr.mode) &&
      (r == s <==> tr.mode != Disabled && s.buttons[j].state == StateFor(tr.mode))
  {
    RedKeyStaysReady(s);
    var tr := s.tracks[s.selected];
    var j := FindById(s.buttons, ItemId(tr.language)).value;
    var r := AfterRedKey(AfterRedKey(s));
    ToggledTwice(tr.mode);
    if r == s {
      assert r.tracks[s.selected] == s.tracks[s.selected];
      assert r.buttons[j] == s.buttons[j];
    }
    if tr.mode != Disabled && s.buttons[j].state == StateFor(tr.mode) {
      assert r.tracks == s.tracks;
      assert r.buttons == s.buttons;
    }
  }

  // ---- Screen mode and the CC button ----

  /** `changeScreenSize`. */
  function AfterScreenChange(s: State): State {
    s.(screen := Flipped(s.screen))
  }

  lemma ScreenChangeKeepsInv(s: State)
    requires Inv(s)
    ensures Inv(AfterScreenChange(s))
  {
  }

  /** Toggling twice restores the whole state when the button text matched the
      mode (it does after any toggle). */
  lemma ScreenChangeTwice(s: State)
    requires Inv(s) && s.screen.buttonText == LabelFor(s.screen.isFull)
    ensures AfterScreenChange(AfterScreenChange(s)) == s
  {
    FlippedTwice(s.screen);
  }

  /** The CC button. */
  function AfterMenuToggle(s: State): State {
    s.(screen := MenuToggled(s.screen))
  }

  lemma MenuToggleKeepsInv(s: State)
    requires Inv(s)
    ensures Inv(AfterMenuToggle(s))
  {
  }

  // ---- Logging and the key dispatch ----

  function AfterLog(s: State, msg: string): State {
    s.(log := LogLines(s.log, msg))
  }

  /** The line logged for a key code the table does not handle. */
  function UnhandledMessage(code: nat): string {
    "Unhandled key: " + NatToString(code)
  }

  /** The logged line names the code: different codes give different lines. */
  lemma UnhandledMessageNamesCode(a: nat, b: nat)
    ensures UnhandledMessage(a) == UnhandledMessage(b) <==> a == b
  {
    var p := "Unhandled key: ";
    if UnhandledMessage(a) == UnhandledMessage(b) {
      assert NatToString(a) == UnhandledMessage(a)[|p|..];
      assert NatToString(b) == UnhandledMessage(b)[|p|..];
    }
    NatToStringInjective(a, b);
  }

  /** The keydown handler. Playback keys act on the media element only, which is
      not part of this state. */
  function AfterKey(s: State, code: nat): State
    requires code == KeyRed ==> RedKeyReady(s)
  {
    match ActionFor(code)
    case HideApp => AfterLog(s, "RETURN")
    case Play => s
    case Stop => s
    case Pause => s
    case ToggleSubtitle => AfterRedKey(s)
    case ToggleScreen => AfterScreenChange(s)
    case Unhandled => AfterLog(s, UnhandledMessage(code))
  }

  /** An unhandled key changes nothing but the log, which gains one line naming
      the code. */
  lemma UnhandledKeyOnlyLogs(s: State, code: nat)
    requires ActionFor(code) == Unhandled
    ensures AfterKey(s, code) == s.(log := s.log + [UnhandledMessage(code)])
  {
  }

  lemma KeyKeepsInv(s: State, code: nat)
    requires Inv(s) && (code == KeyRed ==> RedKeyReady(s))
    ensures Inv(AfterKey(s, code))
  {
    if code == KeyRed {
      RedKeyKeepsInv(s);
    }
  }
}
