/** The configuration state that both versions of the API keep
    (streamdeck_ui_hass/api.py and the older streamdeck_ui/api.py): per deck,
    a record of deck-wide settings and the button records
    `buttons[page][button]`, created on demand. Both versions update it with
    the same rules, defined here once: creating a record on first access,
    setters that write only on change, swapping two buttons, clamping the
    brightness, and turning a button's settings into a list of filters.

    In the source a deck's dictionary holds its "buttons" and its settings
    side by side; here they are the two fields of `Deck`. */
module Configs {
  import opened Wrappers
  import opened Strings

  /** A value stored in a button record: the strings, integers and booleans
      the setters store (JSON `null` and floats are not modelled). */
  datatype Value = Str(s: string) | Int(i: int) | Bool(b: bool)

  /** Python truthiness of `button.get(key)`, where a missing key is `None`. */
  predicate Truthy(v: Option<Value>) {
    match v
    case None => false
    case Some(Str(s)) => s != ""
    case Some(Int(i)) => i != 0
    case Some(Bool(b)) => b
  }

  type Button = map<string, Value>

  /** page -> button -> record. */
  type Pages = map<int, map<int, Button>>

  /** One deck's dictionary: its button records and its integer settings
      ("brightness", "brightness_dimmed", "display_timeout", "page"). */
  datatype Deck = Deck(buttons: Pages, settings: map<string, int>)

  /** deck id (serial number) -> deck. */
  type Decks = map<string, Deck>

  const NoDeck := Deck(map[], map[])

  predicate HasPage(decks: Decks, d: string, p: int) {
    d in decks && p in decks[d].buttons
  }

  predicate Present(decks: Decks, d: string, p: int, b: int) {
    HasPage(decks, d, p) && b in decks[d].buttons[p]
  }

  function At(decks: Decks, d: string, p: int, b: int): Button
    requires Present(decks, d, p, b)
  {
    decks[d].buttons[p][b]
  }

  /** `button.get(key)`. */
  function Get(button: Button, key: string): (r: Option<Value>)
    ensures r.Some? <==> key in button
    ensures r.Some? ==> r.value == button[key]
  {
    if key in button then Some(button[key]) else None
  }

  /** `button.get(key, default)`. */
  function GetOr(button: Button, key: string, default: Value): Value {
    Get(button, key).GetOr(default)
  }

  /** `b` is `a` except, at most, for the record (deck, page, button), which
      may be new or changed, and the deck and page that hold it, which may be
      new (with no settings). */
  ghost predicate OnlyAt(a: Decks, b: Decks, deck: string, page: int, button: int) {
    (forall d :: d != deck ==> (d in b <==> d in a)) &&
    (forall d :: d in a ==> d in b && b[d].settings == a[d].settings) &&
    (deck in b && deck !in a ==> b[deck].settings == map[]) &&
    (forall d, p :: (d, p) != (deck, page) ==> (HasPage(b, d, p) <==> HasPage(a, d, p))) &&
    (forall d, p :: HasPage(a, d, p) ==> HasPage(b, d, p)) &&
    (forall d, p, q :: (d, p, q) != (deck, page, button) ==> (Present(b, d, p, q) <==> Present(a, d, p, q))) &&
    (forall d, p, q :: Present(a, d, p, q) ==> Present(b, d, p, q)) &&
    (forall d, p, q :: Present(a, d, p, q) && (d, p, q) != (deck, page, button) ==> At(b, d, p, q) == At(a, d, p, q))
  }

  /** `_button_state`: `setdefault` on the deck, its "buttons", the page and
      the button. It returns the record, creating an empty one (and the deck
      and page) when none exists; an existing record is returned as it is and
      the state is left unchanged. */
  function ButtonState(decks: Decks, deck: string, page: int, button: int): (r: (Button, Decks))
    ensures Present(r.1, deck, page, button) && r.0 == At(r.1, deck, page, button)
    ensures r.0 == if Present(decks, deck, page, button) then At(decks, deck, page, button) else map[]
    ensures OnlyAt(decks, r.1, deck, page, button)
    ensures Present(decks, deck, page, button) ==> r.1 == decks
  {
    if Present(decks, deck, page, button) then (At(decks, deck, page, button), decks)
    else (map[], Created(decks, deck, page, button))
  }

  /** The state `_button_state` leaves when the record is missing: the deck
      and page from `setdefault`, and an empty record at the button. */
  function Created(decks: Decks, deck: string, page: int, button: int): (r: Decks)
    ensures Present(r, deck, page, button) && At(r, deck, page, button) == map[]
    ensures OnlyAt(decks, r, deck, page, button)
  {
    var d := if deck in decks then decks[deck] else NoDeck;
    var row := if page in d.buttons then d.buttons[page] else map[];
    decks[deck := d.(buttons := d.buttons[page := row[button := map[]]])]
  }

  /** Once a record exists, fetching it again changes nothing. */
  lemma ButtonStateTwice(decks: Decks, deck: string, page: int, button: int)
    ensures var (record, after) := ButtonState(decks, deck, page, button);
            ButtonState(after, deck, page, button) == (record, after)
  {
  }

  /** Replace an existing record. */
  function Put(decks: Decks, deck: string, page: int, button: int, record: Button): (r: Decks)
    requires Present(decks, deck, page, button)
    ensures Present(r, deck, page, button) && At(r, deck, page, button) == record
    ensures OnlyAt(decks, r, deck, page, button)
  {
    var d := decks[deck];
    decks[deck := d.(buttons := d.buttons[page := d.buttons[page][button := record]])]
  }

  /** The button settings that have a getter and a setter. */
  datatype Field =
    | Text | Icon | TextVerticalAlign | BrightnessChange | Command | SwitchPage | Keys | Write
    | HassDomain | HassEntity | HassService

  /** The key a field is stored under. */
  function Key(f: Field): string {
    match f
    case Text => "text"
    case Icon => "icon"
    case TextVerticalAlign => "text_vertical_align"
    case BrightnessChange => "brightness_change"
    case Command => "command"
    case SwitchPage => "switch_page"
    case Keys => "keys"
    case Write => "write"
    case HassDomain => "hass_domain"
    case HassEntity => "hass_entity"
    case HassService => "hass_service"
  }

  /** What the getter answers for a record without the key: 0 for the two
      numeric fields, "" for the others. */
  function Default(f: Field): (r: Value)
    ensures r == Int(0) <==> f == BrightnessChange || f == SwitchPage
    ensures r != Int(0) ==> r == Str("")
  {
    if f == BrightnessChange || f == SwitchPage then Int(0) else Str("")
  }

  /** Distinct fields are stored under distinct keys. */
  lemma KeysDistinct(f: Field, g: Field)
    requires f != g
    ensures Key(f) != Key(g)
  {
  }

  /** A button setter (`set_button_text` and its siblings): the getter reads
      `.get(key, default)` from the record, which it creates when missing, and
      only a different value is written and saved. The second component says
      whether the state was saved. */
  function SetField(decks: Decks, deck: string, page: int, button: int, key: string, v: Value, default: Value)
    : (r: (Decks, bool))
    ensures Present(r.0, deck, page, button) && GetOr(At(r.0, deck, page, button), key, default) == v
    ensures r.1 <==> GetOr(ButtonState(decks, deck, page, button).0, key, default) != v
    ensures forall k :: k != key ==>
              Get(At(r.0, deck, page, button), k) == Get(ButtonState(decks, deck, page, button).0, k)
    ensures !r.1 ==> r.0 == ButtonState(decks, deck, page, button).1
    ensures OnlyAt(decks, r.0, deck, page, button)
  {
    var (record, created) := ButtonState(decks, deck, page, button);
    if GetOr(record, key, default) != v then (Put(created, deck, page, button, record[key := v]), true)
    else (created, false)
  }

  /** Setting the same value a second time changes nothing and saves nothing. */
  lemma SetFieldTwice(decks: Decks, deck: string, page: int, button: int, key: string, v: Value, default: Value)
    ensures var once := SetField(decks, deck, page, button, key, v, default).0;
            SetField(once, deck, page, button, key, v, default) == (once, false)
  {
  }

  /** A deck setting, `state.get(deck, {}).get(key, default)`. */
  function GetSetting(decks: Decks, deck: string, key: string, default: int): (v: int)
    ensures deck in decks && key in decks[deck].settings ==> v == decks[deck].settings[key]
    ensures !(deck in decks && key in decks[deck].settings) ==> v == default
  {
    if deck in decks && key in decks[deck].settings then decks[deck].settings[key] else default
  }

  /** Reading a setting after storing one: the stored value comes back for
      that deck and key, and every other setting reads as before. */
  lemma GetOfPutSetting(decks: Decks, deck: string, key: string, v: int, deck2: string, key2: string, default: int)
    ensures GetSetting(PutSetting(decks, deck, key, v), deck2, key2, default) ==
            if deck2 == deck && key2 == key then v else GetSetting(decks, deck2, key2, default)
  {
  }

  /** `state.setdefault(deck, {})[key] = v`: only that setting of that deck
      changes. */
  function PutSetting(decks: Decks, deck: string, key: string, v: int): (r: Decks)
    ensures deck in r && key in r[deck].settings && r[deck].settings[key] == v
    ensures forall k :: k != key ==> (k in r[deck].settings <==> deck in decks && k in decks[deck].settings)
    ensures forall k :: k != key && deck in decks && k in decks[deck].settings ==>
              r[deck].settings[k] == decks[deck].settings[k]
    ensures r[deck].buttons == if deck in decks then decks[deck].buttons else map[]
    ensures forall d :: d != deck ==> (d in r <==> d in decks) && (d in decks ==> r[d] == decks[d])
  {
    var d := if deck in decks then decks[deck] else NoDeck;
    decks[deck := d.(settings := d.settings[key := v])]
  }

  /** `swap_buttons`: the records of `source` and `target` on one page trade
      places. A missing deck, page or button is a KeyError, raised before
      anything is written. */
  function Swap(decks: Decks, deck: string, page: int, source: int, target: int): (r: Result<Decks>)
    ensures r.Ok? <==> Present(decks, deck, page, source) && Present(decks, deck, page, target)
    ensures r.Ok? ==> forall d, p, q :: Present(r.value, d, p, q) <==> Present(decks, d, p, q)
    ensures r.Ok? ==> At(r.value, deck, page, source) == At(decks, deck, page, target)
    ensures r.Ok? ==> At(r.value, deck, page, target) == At(decks, deck, page, source)
    ensures r.Ok? ==> forall d :: (d in r.value <==> d in decks) && (d in decks && d != deck ==> r.value[d] == decks[d])
    ensures r.Ok? ==> r.value[deck].settings == decks[deck].settings
    ensures r.Ok? ==> forall d, p, q :: Present(decks, d, p, q) && (d, p) != (deck, page) ==>
              At(r.value, d, p, q) == At(decks, d, p, q)
    ensures r.Ok? ==> forall q :: Present(decks, deck, page, q) && q != source && q != target ==>
              At(r.value, deck, page, q) == At(decks, deck, page, q)
  {
    if !Present(decks, deck, page, source) then Err(KeyError("button"))
    else if !Present(decks, deck, page, target) then Err(KeyError("button"))
    else
      var d := decks[deck];
      var row := d.buttons[page];
      var swapped := row[source := row[target]][target := row[source]];
      Ok(decks[deck := d.(buttons := d.buttons[page := swapped])])
  }

  /** Swapping the same two buttons again restores the state. */
  lemma SwapTwice(decks: Decks, deck: string, page: int, source: int, target: int)
    requires Swap(decks, deck, page, source, target).Ok?
    ensures Swap(Swap(decks, deck, page, source, target).value, deck, page, source, target) == Ok(decks)
  {
    var d := decks[deck];
    var row := d.buttons[page];
    var once := row[source := row[target]][target := row[source]];
    var twice := once[source := once[target]][target := once[source]];
    assert twice == row;
    var first := decks[deck := d.(buttons := d.buttons[page := once])];
    assert Swap(decks, deck, page, source, target) == Ok(first);
    assert first[deck].buttons[page] == once;
    assert first[deck].buttons[page := twice] == d.buttons;
    var e := first[deck];
    assert e.(buttons := e.buttons[page := twice]) == d;
    assert first[deck := d] == decks[deck := d];
    assert Swap(first, deck, page, source, target) == Ok(decks[deck := d]);
    assert decks[deck := d] == decks;
  }

  /** `max(min(x, 100), 0)`. */
  function Clamp(x: int): (r: int)
    ensures 0 <= r <= 100
    ensures 0 <= x <= 100 ==> r == x
    ensures x > 100 ==> r == 100
    ensures x < 0 ==> r == 0
  {
    if x > 100 then 100 else if x < 0 then 0 else x
  }

  /** What the API has told a deck's display handler: the page it shows,
      whether it was started, and the filters it was given per (page, button). */
  datatype Handler = Handler(page: int, started: bool, filters: map<(int, int), seq<FilterSpec>>)

  /** `replace(page, button, filters)` on a handler. */
  function Replace(h: Handler, page: int, button: int, filters: seq<FilterSpec>): (r: Handler)
    ensures r.page == h.page && r.started == h.started
    ensures (page, button) in r.filters && r.filters[(page, button)] == filters
    ensures forall k :: k != (page, button) ==> (k in r.filters <==> k in h.filters)
    ensures forall k :: k != (page, button) && k in h.filters ==> r.filters[k] == h.filters[k]
  {
    h.(filters := h.filters[(page, button) := filters])
  }

  /** The filters a button can get, by their construction arguments. The
      image and text filters are not modelled beyond these. */
  datatype FilterSpec =
    | ImageSpec(icon: Value)
    | PulseSpec
    | TextSpec(text: Value, font: Value, align: Option<string>, size: Option<int>)

  /** Where a kind of filter may stand: image, then pulse, then text. */
  function Rank(f: FilterSpec): nat {
    match f
    case ImageSpec(_) => 0
    case PulseSpec => 1
    case TextSpec(_, _, _, _) => 2
  }

  /** Every kind occurs at most once, and in the order image, pulse, text. */
  predicate Ordered(fs: seq<FilterSpec>) {
    forall i, j :: 0 <= i < j < |fs| ==> Rank(fs[i]) < Rank(fs[j])
  }

  predicate HasKind(fs: seq<FilterSpec>, rank: nat) {
    exists i :: 0 <= i < |fs| && Rank(fs[i]) == rank
  }

  /** The font size of a button's text: 14 next to an icon, otherwise chosen
      by the text's length. */
  function FontSize(text: string, hasIcon: bool): (r: int)
    ensures r == 14 || r == 26 || r == 33 || r == 40
    ensures hasIcon || |text| >= 6 ==> r == 14
    ensures !hasIcon && |text| < 4 ==> r == 40
    ensures !hasIcon && |text| == 4 ==> r == 33
    ensures !hasIcon && |text| == 5 ==> r == 26
  {
    if hasIcon then 14
    else if |text| < 4 then 40
    else if |text| < 5 then 33
    else if |text| < 6 then 26
    else 14
  }

  /** A longer text never gets a larger font. */
  lemma FontSizeShrinks(shorter: string, longer: string, hasIcon: bool)
    requires |shorter| <= |longer|
    ensures FontSize(longer, hasIcon) <= FontSize(shorter, hasIcon)
  {
  }

  /** For at most three filters, the kinds present, the order and the
      elements, written out position by position. */
  lemma ShortKinds(r: seq<FilterSpec>)
    requires |r| <= 3
    ensures forall k: nat :: HasKind(r, k) <==>
              (|r| > 0 && Rank(r[0]) == k) || (|r| > 1 && Rank(r[1]) == k) || (|r| > 2 && Rank(r[2]) == k)
    ensures Ordered(r) <==> (|r| > 1 ==> Rank(r[0]) < Rank(r[1])) && (|r| > 2 ==> Rank(r[1]) < Rank(r[2]))
    ensures forall i :: 0 <= i < |r| ==> r[i] == r[0] || r[i] == r[|r| / 2] || r[i] == r[|r| - 1]
  {
    forall k: nat | HasKind(r, k)
      ensures (|r| > 0 && Rank(r[0]) == k) || (|r| > 1 && Rank(r[1]) == k) || (|r| > 2 && Rank(r[2]) == k)
    {
      var i :| 0 <= i < |r| && Rank(r[i]) == k;
    }
  }

  /** Concatenate the filters of the three settings that are truthy. */
  function Assemble(image: Option<FilterSpec>, pulse: bool, text: Option<FilterSpec>): (r: seq<FilterSpec>)
    requires image.Some? ==> image.value.ImageSpec?
    requires text.Some? ==> text.value.TextSpec?
    ensures Ordered(r)
    ensures HasKind(r, 0) <==> image.Some?
    ensures HasKind(r, 1) <==> pulse
    ensures HasKind(r, 2) <==> text.Some?
    ensures forall i :: 0 <= i < |r| && r[i].ImageSpec? ==> r[i] == image.value
    ensures forall i :: 0 <= i < |r| && r[i].TextSpec? ==> r[i] == text.value
  {
    match (image, pulse, text)
    case (Some(i), true, Some(t)) =>
      var r := [i, PulseSpec, t];
      ShortKinds(r);
      r
    case (Some(i), true, None) =>
      var r := [i, PulseSpec];
      ShortKinds(r);
      r
    case (Some(i), false, Some(t)) =>
      var r := [i, t];
      ShortKinds(r);
      r
    case (Some(i), false, None) =>
      var r := [i];
      ShortKinds(r);
      r
    case (None, true, Some(t)) =>
      var r := [PulseSpec, t];
      ShortKinds(r);
      r
    case (None, true, None) =>
      var r := [PulseSpec];
      ShortKinds(r);
      r
    case (None, false, Some(t)) =>
      var r := [t];
      ShortKinds(r);
      r
    case (None, false, None) => []
  }

  /** `update_button_filters` of streamdeck_ui_hass/api.py: an image filter
      for a truthy icon, a pulse filter for a truthy pulse, a text filter for a
      truthy text, in that order. The text is centred ("middle") at the size
      `FontSize` gives; computing that size takes the text's length, which a
      number or boolean has not. */
  function ButtonFilters(button: Button, defaultFont: Value): (r: Result<seq<FilterSpec>>)
    ensures r.Err? <==> Truthy(Get(button, "text")) && !Truthy(Get(button, "icon")) && !button["text"].Str?
    ensures r.Ok? ==> Ordered(r.value)
    ensures r.Ok? ==> (HasKind(r.value, 0) <==> Truthy(Get(button, "icon")))
    ensures r.Ok? ==> (HasKind(r.value, 1) <==> Truthy(Get(button, "pulse")))
    ensures r.Ok? ==> (HasKind(r.value, 2) <==> Truthy(Get(button, "text")))
    ensures r.Ok? ==> forall i :: 0 <= i < |r.value| && r.value[i].ImageSpec? ==> r.value[i].icon == button["icon"]
    ensures r.Ok? ==> forall i :: 0 <= i < |r.value| && r.value[i].TextSpec? ==>
              r.value[i].text == button["text"] && r.value[i].font == GetOr(button, "font", defaultFont) &&
              r.value[i].align == Some("middle") &&
              r.value[i].size == Some(if Truthy(Get(button, "icon")) then 14 else FontSize(button["text"].s, false))
  {
    var icon := Get(button, "icon");
    var text := Get(button, "text");
    var image := if Truthy(icon) then Some(ImageSpec(icon.value)) else None;
    if Truthy(text) && !Truthy(icon) && !text.value.Str? then Err(TypeError("len"))
    else
      var caption := if !Truthy(text) then None
        else
          var size := if Truthy(icon) then 14 else FontSize(text.value.s, false);
          Some(TextSpec(text.value, GetOr(button, "font", defaultFont), Some("middle"), Some(size)));
      Ok(Assemble(image, Truthy(Get(button, "pulse")), caption))
  }

  /** `update_button_filters` of streamdeck_ui/api.py: the same three
      filters in the same order; the text filter gets only the text and the
      font. A button with no truthy icon, pulse or text gets no filter. */
  function LegacyButtonFilters(button: Button, defaultFont: Value): (r: seq<FilterSpec>)
    ensures Ordered(r)
    ensures HasKind(r, 0) <==> Truthy(Get(button, "icon"))
    ensures HasKind(r, 1) <==> Truthy(Get(button, "pulse"))
    ensures HasKind(r, 2) <==> Truthy(Get(button, "text"))
    ensures forall i :: 0 <= i < |r| && r[i].ImageSpec? ==> r[i].icon == button["icon"]
    ensures forall i :: 0 <= i < |r| && r[i].TextSpec? ==>
              r[i] == TextSpec(button["text"], GetOr(button, "font", defaultFont), None, None)
  {
    var icon := Get(button, "icon");
    var text := Get(button, "text");
    var image := if Truthy(icon) then Some(ImageSpec(icon.value)) else None;
    var caption := if Truthy(text) then Some(TextSpec(text.value, GetOr(button, "font", defaultFont), None, None)) else None;
    Assemble(image, Truthy(Get(button, "pulse")), caption)
  }

  /** A button whose icon, pulse and text are all unset or falsy gets no
      filter, in either version. */
  lemma NoSettingsNoFilters(button: Button, defaultFont: Value)
    requires !Truthy(Get(button, "icon")) && !Truthy(Get(button, "pulse")) && !Truthy(Get(button, "text"))
    ensures LegacyButtonFilters(button, defaultFont) == []
    ensures ButtonFilters(button, defaultFont) == Ok([])
  {
  }

  /** What `initialize_state(serial, n)` guarantees: every record of `a` is
      kept as it was, and the only new records, pages and decks are empty
      ones for `serial`, pages 0 to 9 and buttons below `n`. */
  ghost predicate Initialized(a: Decks, b: Decks, serial: string, n: int) {
    (forall d :: d in a ==> d in b && b[d].settings == a[d].settings) &&
    (forall d :: d in b ==> d in a || (d == serial && n > 0)) &&
    (serial in b && serial !in a ==> b[serial].settings == map[]) &&
    (forall d, p :: HasPage(a, d, p) ==> HasPage(b, d, p)) &&
    (forall d, p :: HasPage(b, d, p) ==> HasPage(a, d, p) || (d == serial && 0 <= p < 10 && n > 0)) &&
    (forall d, p, q :: Present(a, d, p, q) ==> Present(b, d, p, q) && At(b, d, p, q) == At(a, d, p, q)) &&
    (forall d, p, q :: Present(b, d, p, q) && !Present(a, d, p, q) ==>
       d == serial && 0 <= p < 10 && 0 <= q < n && At(b, d, p, q) == map[])
  }

  /** After initialisation, the records of `serial` are the old ones and the
      created ones together. */
  lemma InitializedRecords(a: Decks, b: Decks, serial: string, n: int, order: seq<(int, int)>)
    requires Initialized(a, b, serial, n)
    requires forall p, q :: 0 <= p < 10 && 0 <= q < n ==> Present(b, serial, p, q)
    requires forall p, q :: (Present(a, serial, p, q) || (0 <= p < 10 && 0 <= q < n)) <==> (p, q) in order
    ensures forall p, q :: Present(b, serial, p, q) <==> (p, q) in order
  {
    forall p, q ensures Present(b, serial, p, q) <==> (p, q) in order {
      if Present(b, serial, p, q) && !Present(a, serial, p, q) {
        assert 0 <= p < 10 && 0 <= q < n;
      }
    }
  }

  /** `initialize_state`: `_button_state` for every page below 10 and every
      button below `n`, which creates the missing records and leaves the
      existing ones alone. */
  method InitializeState(decks: Decks, serial: string, n: int) returns (r: Decks)
    ensures forall p, q :: 0 <= p < 10 && 0 <= q < n ==> Present(r, serial, p, q)
    ensures Initialized(decks, r, serial, n)
  {
    r := decks;
    var page := 0;
    while page < 10
      invariant 0 <= page <= 10
      invariant forall p, q :: 0 <= p < page && 0 <= q < n ==> Present(r, serial, p, q)
      invariant Initialized(decks, r, serial, n)
    {
      r := InitializePage(decks, r, serial, n, page);
      page := page + 1;
    }
  }

  /** The inner loop of `initialize_state`: `_button_state` for every button
      of one page. */
  method InitializePage(decks: Decks, b: Decks, serial: string, n: int, page: int) returns (r: Decks)
    requires Initialized(decks, b, serial, n)
    requires 0 <= page < 10
    ensures forall q :: 0 <= q < n ==> Present(r, serial, page, q)
    ensures forall p, q :: Present(b, serial, p, q) ==> Present(r, serial, p, q)
    ensures Initialized(decks, r, serial, n)
  {
    r := b;
    var count := if n < 0 then 0 else n;
    var button := 0;
    while button < count
      invariant 0 <= button <= count
      invariant forall p, q :: Present(b, serial, p, q) ==> Present(r, serial, p, q)
      invariant forall q :: 0 <= q < button ==> Present(r, serial, page, q)
      invariant Initialized(decks, r, serial, n)
    {
      var before := r;
      r := ButtonState(r, serial, page, button).1;
      StepKeepsInitialized(decks, before, r, serial, n, page, button);
      button := button + 1;
    }
  }

  lemma StepKeepsInitialized(a: Decks, b: Decks, c: Decks, serial: string, n: int, page: int, button: int)
    requires Initialized(a, b, serial, n)
    requires 0 <= page < 10 && 0 <= button < n
    requires c == ButtonState(b, serial, page, button).1
    ensures Initialized(a, c, serial, n)
    ensures Present(c, serial, page, button)
    ensures forall p, q :: Present(b, serial, p, q) ==> Present(c, serial, p, q)
  {
  }
}
