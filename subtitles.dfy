/** Host text tracks and the subtitle menu's buttons, as values, with the rules
    the menu's click handler and the red key apply to them. */
module Subtitles {

  datatype Option<T> = None | Some(value: T)

  /** A text track's visibility mode. */
  datatype Mode = Showing | Hidden | Disabled

  /** A host text track. Only its mode is ever changed. */
  datatype Track = Track(language: string, title: string, mode: Mode)

  /** A button's `data-state` attribute. */
  datatype ButtonState = Active | Inactive

  /** A button made by the menu-item factory. `inMenu` records whether its list
      item was put in the menu, that is, whether the document can find it by id. */
  datatype Button = Button(id: string, lang: string, text: string, state: ButtonState, inMenu: bool)

  const IdPrefix: string := "subtitles-"
  const OffId: string := "subtitles-off"

  /** The id of the button for a language. */
  function ItemId(language: string): string {
    IdPrefix + language
  }

  lemma ItemIdInjective(a: string, b: string)
    ensures ItemId(a) == ItemId(b) <==> a == b
  {
    if ItemId(a) == ItemId(b) {
      assert a == ItemId(a)[|IdPrefix|..];
      assert b == ItemId(b)[|IdPrefix|..];
    }
  }

  /** The Off button's id names a track's button only for the language "off". */
  lemma OffIdIsItemId(language: string)
    ensures OffId == ItemId(language) <==> language == "off"
  {
    assert OffId == ItemId("off");
    ItemIdInjective(language, "off");
  }

  /** A button as the factory creates it: it always starts inactive. */
  function NewItem(id: string, lang: string, text: string, inMenu: bool): Button {
    Button(id, lang, text, Inactive, inMenu)
  }

  /** The factory called with no arguments: id, lang and label all read
      "undefined" and the list item is never put in the menu. */
  function DetachedItem(): Button {
    NewItem("undefined", "undefined", "undefined", false)
  }

  /** The synthetic Off entry. */
  function OffItem(): Button {
    NewItem(OffId, "", "Off", true)
  }

  /** The entry for one track. */
  function TrackItem(t: Track): Button {
    NewItem(ItemId(t.language), t.language, t.title, true)
  }

  /** One entry per track, in host order. */
  function ItemsFor(t: seq<Track>): (r: seq<Button>)
    ensures |r| == |t|
    ensures forall i :: 0 <= i < |t| ==> r[i] == TrackItem(t[i])
  {
    if t == [] then [] else ItemsFor(t[..|t| - 1]) + [TrackItem(t[|t| - 1])]
  }

  /** Every button initialisation pushes: the detached one, the Off entry, then
      one entry per track. */
  function MenuButtons(t: seq<Track>): seq<Button> {
    [DetachedItem(), OffItem()] + ItemsFor(t)
  }

  /** The menu offers |t| + 1 entries, Off first, then the tracks in host order,
      each under id "subtitles-" + language; every button starts inactive. */
  lemma MenuButtonsShape(t: seq<Track>)
    ensures var m := MenuButtons(t);
      |m| == |t| + 2 &&
      !m[0].inMenu &&
      m[1].id == OffId && m[1].lang == "" && m[1].text == "Off" && m[1].inMenu &&
      (forall i :: 0 <= i < |t| ==>
         m[i + 2].id == ItemId(t[i].language) && m[i + 2].lang == t[i].language &&
         m[i + 2].text == t[i].title && m[i + 2].inMenu) &&
      (forall j :: 0 <= j < |m| ==> m[j].state == Inactive)
  {
  }

  /** Two track lists that differ at most in modes. */
  predicate SameCatalog(t: seq<Track>, u: seq<Track>) {
    |t| == |u| &&
    forall i :: 0 <= i < |t| ==> t[i].language == u[i].language && t[i].title == u[i].title
  }

  /** The menu depends on the tracks' languages and labels only. */
  lemma MenuButtonsIgnoresModes(t: seq<Track>, u: seq<Track>)
    requires SameCatalog(t, u)
    ensures MenuButtons(t) == MenuButtons(u)
  {
  }

  // ---- Selection: the click handler of a menu button ----

  /** Some track has the language. */
  predicate HasLanguage(t: seq<Track>, lang: string) {
    exists i :: 0 <= i < |t| && t[i].language == lang
  }

  function SelectedTrack(tr: Track, lang: string): Track {
    tr.(mode := if tr.language == lang then Showing else Hidden)
  }

  /** The tracks after selecting `lang`: each shows exactly when its language
      is `lang`, and none is left disabled. */
  function SelectedTracks(t: seq<Track>, lang: string): (r: seq<Track>)
    ensures SameCatalog(t, r)
    ensures forall i :: 0 <= i < |r| ==> (r[i].mode == Showing <==> t[i].language == lang)
    ensures forall i :: 0 <= i < |r| ==> r[i].mode != Disabled
  {
    seq(|t|, i requires 0 <= i < |t| => SelectedTrack(t[i], lang))
  }

  /** The position of the last track with the language, if any. */
  function LastIndexOf(t: seq<Track>, lang: string): (r: Option<nat>)
    ensures r.Some? ==>
      r.value < |t| && t[r.value].language == lang &&
      forall i :: r.value < i < |t| ==> t[i].language != lang
    ensures r.None? ==> forall i :: 0 <= i < |t| ==> t[i].language != lang
  {
    if t == [] then None
    else if t[|t| - 1].language == lang then Some(|t| - 1)
    else LastIndexOf(t[..|t| - 1], lang)
  }

  /** Every button set inactive. */
  function Deactivated(bs: seq<Button>): seq<Button> {
    seq(|bs|, j requires 0 <= j < |bs| => bs[j].(state := Inactive))
  }

  /** A button with its state left out. */
  function Shape(b: Button): Button {
    b.(state := Inactive)
  }

  /** The buttons after a click on button k: all inactive, then k active when
      some track matched. Only states change. */
  function Clicked(bs: seq<Button>, k: nat, found: bool): (r: seq<Button>)
    requires k < |bs|
    ensures |r| == |bs|
    ensures forall j :: 0 <= j < |bs| ==> Shape(r[j]) == Shape(bs[j])
    ensures forall j :: 0 <= j < |bs| ==> (r[j].state == Active <==> j == k && found)
  {
    var d := Deactivated(bs);
    if found then d[k := d[k].(state := Active)] else d
  }

  // ---- Lookup by id ----

  /** The document can find the button under this id. */
  predicate Matches(b: Button, id: string) {
    b.inMenu && b.id == id
  }

  /** `getElementById` from position `from` on: the first button in the menu
      with the id. */
  function FindFrom(bs: seq<Button>, id: string, from: nat): (r: Option<nat>)
    requires from <= |bs|
    ensures r.Some? ==>
      from <= r.value < |bs| && Matches(bs[r.value], id) &&
      forall j :: from <= j < r.value ==> !Matches(bs[j], id)
    ensures r.None? ==> forall j :: from <= j < |bs| ==> !Matches(bs[j], id)
    decreases |bs| - from
  {
    if from == |bs| then None
    else if Matches(bs[from], id) then Some(from)
    else FindFrom(bs, id, from + 1)
  }

  /** `getElementById`: the first button in the menu with the id, if any. */
  function FindById(bs: seq<Button>, id: string): Option<nat> {
    FindFrom(bs, id, 0)
  }

  /** Lookup by id does not depend on the buttons' states. */
  lemma FindFromIgnoresStates(bs: seq<Button>, cs: seq<Button>, id: string, from: nat)
    requires |bs| == |cs| && from <= |bs|
    requires forall j :: 0 <= j < |bs| ==> Shape(bs[j]) == Shape(cs[j])
    ensures FindFrom(bs, id, from) == FindFrom(cs, id, from)
    decreases |bs| - from
  {
  }

  // ---- The red key ----

  /** The red key's new mode: a showing track is hidden, any other is shown. */
  function Toggled(m: Mode): (r: Mode)
    ensures r != Disabled
    ensures r == Showing <==> m != Showing
  {
    if m == Showing then Hidden else Showing
  }

  /** The button state the red key sets along with a mode. */
  function StateFor(m: Mode): ButtonState {
    if m == Showing then Active else Inactive
  }

  /** Two presses restore a showing or hidden track; a disabled one ends hidden. */
  lemma ToggledTwice(m: Mode)
    ensures Toggled(Toggled(m)) == (if m == Disabled then Hidden else m)
  {
  }
}
