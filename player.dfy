/** The player's subtitle and screen-mode controller as an object: the
    module-level variables of the player script become its fields, and each
    event handler becomes a method that runs to completion. */
module PlayerApp {
  import opened Subtitles
  import opened ScreenMode
  import opened Keys
  import opened Logger
  import opened Controller

  class Player {
    /** The video element's text tracks, owned by the host; handlers change
        their modes in place. */
    const tracks: array<Track>
    /** `subtitleMenuButtons`. */
    var buttons: seq<Button>
    var selectedIndex: nat
    /** Whether `subtitlesMenu` has been created. */
    var built: bool
    var isFull: bool
    /** The `fullscreenMode` class on the video, the controls and the menu. */
    var videoFull: bool
    var controlsFull: bool
    var menuFull: bool
    /** The menu's `style.display`. */
    var display: Display
    /** The fullscreen button's text. */
    var fullscreenText: string
    /** The lines of the log panel. */
    var logLines: seq<string>

    ghost function Abstract(): State
      reads this, tracks
    {
      State(tracks[..], buttons, selectedIndex, built,
            Screen(isFull, videoFull, controlsFull, menuFull, display, fullscreenText),
            logLines)
    }

    ghost predicate Valid()
      reads this, tracks
    {
      Inv(Abstract())
    }

    /** The script's start-up values, over the host's tracks; `buttonText` is
        the fullscreen button's text as the page sets it. */
    constructor (hostTracks: array<Track>, buttonText: string)
      ensures tracks == hostTracks
      ensures Abstract() == Initial(hostTracks[..], buttonText)
      ensures Valid()
    {
      tracks := hostTracks;
      buttons := [];
      selectedIndex := 0;
      built := false;
      isFull := false;
      videoFull := false;
      controlsFull := false;
      menuFull := false;
      display := Unset;
      fullscreenText := buttonText;
      logLines := [];
    }

    /** `log`: append a non-empty message, clear the panel otherwise.
        Updates the fields in place; `Logger.LogLines` is the same rule on values. */
    method Log(msg: string)
      modifies this`logLines
      ensures Abstract() == AfterLog(old(Abstract()), msg)
      ensures old(Valid()) ==> Valid()
    {
      if msg != "" {
        logLines := logLines + [msg];
      } else {
        logLines := [];
      }
    }

    /** The loop of `createSubtitleMenu`: one entry per track, in host order. */
    method AppendTrackItems()
      modifies this`buttons
      ensures buttons == old(buttons) + ItemsFor(tracks[..])
    {
      var i := 0;
      while i < tracks.Length
        invariant 0 <= i <= tracks.Length
        invariant buttons == old(buttons) + ItemsFor(tracks[..i])
      {
        assert tracks[..i + 1][..i] == tracks[..i];
        buttons := buttons + [TrackItem(tracks[i])];
        i := i + 1;
      }
      assert tracks[..i] == tracks[..];
    }

    /** Player initialisation's item-factory call without arguments, then
        `createSubtitleMenu`. */
    method BuildMenu()
      requires !built && buttons == []
      modifies this`buttons, this`built, this`display, this`menuFull
      ensures Abstract() == AfterBuild(old(Abstract()))
      ensures old(Valid()) ==> Valid()
      ensures buttons == MenuButtons(tracks[..])
    {
      ghost var s0 := Abstract();
      if Inv(s0) {
        BuildKeepsInv(s0);
      }
      // the call without arguments: a button that never reaches the menu
      buttons := buttons + [DetachedItem()];
      // a new, unstyled menu, opened by the Off entry
      display := Unset;
      menuFull := false;
      buttons := buttons + [OffItem()];
      AppendTrackItems();
      built := true;
      assert buttons == s0.buttons + MenuButtons(s0.tracks);
    }

    /** The first step of a click: every pushed button to inactive. */
    method DeactivateAll()
      modifies this`buttons
      ensures buttons == Deactivated(old(buttons))
    {
      var j := 0;
      while j < |buttons|
        invariant 0 <= j <= |buttons| == |old(buttons)|
        invariant forall m :: 0 <= m < j ==> buttons[m] == old(buttons[m]).(state := Inactive)
        invariant forall m :: j <= m < |buttons| ==> buttons[m] == old(buttons[m])
      {
        buttons := buttons[j := buttons[j].(state := Inactive)];
        j := j + 1;
      }
    }

    /** The loop of a click on button k: each track shows exactly when its
        language is `lang`; on every match button k becomes active and the
        match's position becomes the selected one. */
    method ShowLanguage(k: nat, lang: string)
      requires k < |buttons|
      modifies this`buttons, this`selectedIndex, tracks
      ensures tracks[..] == SelectedTracks(old(tracks[..]), lang)
      ensures var last := LastIndexOf(old(tracks[..]), lang);
        buttons == (if last.Some? then old(buttons)[k := old(buttons)[k].(state := Active)] else old(buttons)) &&
        selectedIndex == if last.Some? then last.value else old(selectedIndex)
    {
      ghost var t0 := tracks[..];
      ghost var last: Option<nat> := None;
      var i := 0;
      while i < tracks.Length
        invariant 0 <= i <= tracks.Length
        invariant forall m :: 0 <= m < i ==> tracks[m] == SelectedTrack(t0[m], lang)
        invariant forall m :: i <= m < tracks.Length ==> tracks[m] == t0[m]
        invariant last == LastIndexOf(t0[..i], lang)
        invariant buttons == if last.Some? then old(buttons)[k := old(buttons)[k].(state := Active)] else old(buttons)
        invariant selectedIndex == if last.Some? then last.value else old(selectedIndex)
      {
        assert t0[..i + 1][..i] == t0[..i];
        if tracks[i].language == lang {
          tracks[i] := tracks[i].(mode := Showing);
          buttons := buttons[k := buttons[k].(state := Active)];
          selectedIndex := i;
          last := Some(i);
        } else {
          tracks[i] := tracks[i].(mode := Hidden);
        }
        i := i + 1;
      }
      assert t0[..i] == t0;
      assert tracks[..] == SelectedTracks(t0, lang);
    }

    /** The click handler of menu button k. */
    method SelectItem(k: nat)
      requires k < |buttons|
      modifies this`buttons, this`selectedIndex, this`display, tracks
      ensures Abstract() == AfterSelect(old(Abstract()), k)
      ensures old(Valid()) ==> Valid()
    {
      ghost var s0 := Abstract();
      ghost var lang := s0.buttons[k].lang;
      DeactivateAll();
      assert buttons[k].lang == lang;
      ShowLanguage(k, buttons[k].lang);
      display := NoDisplay;
      assert buttons == Clicked(s0.buttons, k, LastIndexOf(s0.tracks, lang).Some?);
      assert Abstract() == AfterSelect(s0, k);
      if Inv(s0) {
        SelectKeepsInv(s0, k);
      }
    }

    /** The red key: throws unless the selected track and its button exist.
        Updates the fields in place; `Controller.AfterRedKey` is the same step on values. */
    method RedKey()
      requires RedKeyReady(Abstract())
      modifies this`buttons, tracks
      ensures Abstract() == AfterRedKey(old(Abstract()))
      ensures old(Valid()) ==> Valid()
    {
      if Valid() {
        RedKeyKeepsInv(Abstract());
      }
      var s := selectedIndex;
      var found := FindById(buttons, ItemId(tracks[s].language));
      var j := found.value;
      if tracks[s].mode == Showing {
        tracks[s] := tracks[s].(mode := Hidden);
        buttons := buttons[j := buttons[j].(state := Inactive)];
      } else {
        tracks[s] := tracks[s].(mode := Showing);
        buttons := buttons[j := buttons[j].(state := Active)];
      }
    }

    /** The CC button.
        Updates the fields in place; `ScreenMode.MenuToggled` is the same step on values. */
    method ToggleMenu()
      requires built
      modifies this`display, this`menuFull
      ensures Abstract() == AfterMenuToggle(old(Abstract()))
      ensures old(Valid()) ==> Valid()
    {
      display := if display == Block then NoDisplay else Block;
      if isFull {
        menuFull := true;
      } else {
        menuFull := false;
      }
    }

    /** `changeScreenSize`.
        Updates the fields in place; `ScreenMode.Flipped` is the same step on values. */
    method ChangeScreenSize()
      requires built
      modifies this`isFull, this`videoFull, this`controlsFull, this`menuFull, this`fullscreenText
      ensures Abstract() == AfterScreenChange(old(Abstract()))
      ensures old(Valid()) ==> Valid()
    {
      if !isFull {
        if display == Block {
          menuFull := true;
        }
        videoFull := true;
        controlsFull := true;
        isFull := true;
        fullscreenText := ReturnLabel;
      } else {
        if display == Block {
          menuFull := false;
        }
        videoFull := false;
        controlsFull := false;
        isFull := false;
        fullscreenText := EnterLabel;
      }
    }

    /** The fullscreen button's click handler. */
    method ClickFullscreen()
      requires built
      modifies this`logLines, this`isFull, this`videoFull, this`controlsFull, this`menuFull, this`fullscreenText
      ensures Abstract() == AfterScreenChange(AfterLog(old(Abstract()), "fullscreen Button is clicked."))
      ensures old(Valid()) ==> Valid()
    {
      Log("fullscreen Button is clicked.");
      ChangeScreenSize();
    }

    /** The keydown handler; returns the action the key dispatched to. */
    method HandleKey(code: nat) returns (action: Action)
      requires code == KeyRed ==> RedKeyReady(Abstract())
      requires code == KeyEnter ==> built
      modifies this, tracks
      ensures action == ActionFor(code)
      ensures Abstract() == AfterKey(old(Abstract()), code)
      ensures old(Valid()) ==> Valid()
    {
      action := ActionFor(code);
      match action
      case HideApp =>
        Log("RETURN");
      case Play =>
      case Stop =>
      case Pause =>
      case ToggleSubtitle =>
        RedKey();
      case ToggleScreen =>
        ChangeScreenSize();
      case Unhandled =>
        Log(UnhandledMessage(code));
    }
  }

  /** The two-track example: English and French, select French. */
  method SelectFrenchExample() {
    var t := new Track[2];
    t[0] := Track("en", "English", Disabled);
    t[1] := Track("fr", "French", Disabled);
    var p := new Player(t, EnterLabel);
    p.BuildMenu();
    label built:
    assert |p.buttons| == 4;
    p.SelectItem(3);
    assert p.buttons[3].lang == "fr";
    assert p.tracks[1].mode == Showing && p.tracks[0].mode == Hidden;
    assert p.selectedIndex == 1;
    assert p.display == NoDisplay;
    SelectActivatesClicked(old@built(p.Abstract()), 3);
    assert p.buttons[3].state == Active;
    assert p.buttons[1].state == Inactive && p.buttons[2].state == Inactive;
  }
}
