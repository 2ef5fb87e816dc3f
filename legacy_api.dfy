/** The older API of streamdeck_ui/api.py, whose state lives in module
    globals: the configuration `state` (deck id -> deck, with no "decks"
    level), the attached devices, the device-id -> serial-number map and the
    display handlers. Here those globals are the fields of one object.

    The configuration rules it shares with the Home Assistant edition
    (records created on demand, write-on-change setters, swap, clamping,
    filters) are the ones of module Configs. What differs is modelled here:
    there are no dimmers, refreshing a button without a display handler is a
    KeyError instead of a no-op, and the configuration file is loaded by
    `_open_config`, whose string keys are turned back into integers. */
module LegacyApi {
  import opened Wrappers
  import opened Strings
  import opened Configs

  /** The button settings the older API has a getter and a setter for. */
  predicate LegacyField(f: Field) {
    f == Text || f == Icon || f == BrightnessChange || f == Command || f == SwitchPage || f == Keys || f == Write
  }

  /** A deck as the configuration file holds it, before `_open_config`: its
      button records keyed by strings, page then button, in file order (an
      absent "buttons" key is an empty list), and its other settings. */
  datatype RawDeck = RawDeck(buttons: seq<(string, seq<(string, Button)>)>, settings: map<string, int>)

  /** The decoded file: "streamdeck_ui_version" and "state", either of which
      may be absent. */
  datatype RawConfig = RawConfig(version: Option<int>, state: Option<seq<(string, RawDeck)>>)

  /** Entry `i` is the last one whose key parses to its number, so it is the
      one a dictionary comprehension keeps. */
  predicate LastOfKey<X>(entries: seq<(string, X)>, i: int)
    requires 0 <= i < |entries|
  {
    forall j :: i < j < |entries| ==> ParseInt(entries[j].0) != ParseInt(entries[i].0)
  }

  /** Entry `i` converts: its key with `int()` and its value with `f`. */
  predicate Converts<X, Y>(entries: seq<(string, X)>, f: X -> Result<Y>, i: int)
    requires 0 <= i < |entries|
  {
    ParseInt(entries[i].0).Ok? && f(entries[i].1).Ok?
  }

  /** The error entry `i` raises when it does not convert. */
  function ConvertError<X, Y>(entries: seq<(string, X)>, f: X -> Result<Y>, i: int): Error
    requires 0 <= i < |entries| && !Converts(entries, f, i)
  {
    if ParseInt(entries[i].0).Err? then ParseInt(entries[i].0).error else f(entries[i].1).error
  }

  /** `{int(k): f(v) for k, v in entries}`: every key goes through `int()`
      and every value through `f`, in order; the first failure is the error,
      and a later entry whose key has the same number wins. */
  function ConvertWith<X, Y>(entries: seq<(string, X)>, f: X -> Result<Y>): (r: Result<map<int, Y>>)
    ensures r.Ok? <==> forall i :: 0 <= i < |entries| ==> Converts(entries, f, i)
    decreases |entries|
  {
    if |entries| == 0 then Ok(map[])
    else
      var n := |entries| - 1;
      var init := ConvertWith(entries[..n], f);
      assert forall i :: 0 <= i < n ==> entries[..n][i] == entries[i];
      assert forall i :: 0 <= i < n ==> (Converts(entries[..n], f, i) <==> Converts(entries, f, i));
      if init.Err? then Err(init.error)
      else
        var key := ParseInt(entries[n].0);
        if key.Err? then
          assert !Converts(entries, f, n);
          Err(key.error)
        else
          var value := f(entries[n].1);
          if value.Err? then
            assert !Converts(entries, f, n);
            Err(value.error)
          else Ok(init.value[key.value := value.value])
  }

  /** The error is the one of the first entry that does not convert. */
  lemma {:induction false} ConvertWithError<X, Y>(entries: seq<(string, X)>, f: X -> Result<Y>, i: int)
    requires 0 <= i < |entries| && !Converts(entries, f, i)
    requires forall j :: 0 <= j < i ==> Converts(entries, f, j)
    ensures ConvertWith(entries, f) == Err(ConvertError(entries, f, i))
    decreases |entries|
  {
    var n := |entries| - 1;
    assert forall j :: 0 <= j < n ==> entries[..n][j] == entries[j];
    assert forall j :: 0 <= j < n ==> (Converts(entries[..n], f, j) <==> Converts(entries, f, j));
    if i < n {
      ConvertWithError(entries[..n], f, i);
    }
  }

  /** The keys of the result are the numbers of the entries' keys. */
  lemma {:induction false} ConvertWithKeys<X, Y>(entries: seq<(string, X)>, f: X -> Result<Y>, k: int)
    requires ConvertWith(entries, f).Ok?
    ensures k in ConvertWith(entries, f).value <==> exists i :: 0 <= i < |entries| && ParseInt(entries[i].0) == Ok(k)
    decreases |entries|
  {
    if |entries| > 0 {
      var n := |entries| - 1;
      assert forall j :: 0 <= j < n ==> entries[..n][j] == entries[j];
      ConvertWithKeys(entries[..n], f, k);
    }
  }

  /** The last entry with a given number gives that number's value. */
  lemma {:induction false} ConvertWithValue<X, Y>(entries: seq<(string, X)>, f: X -> Result<Y>, i: int)
    requires ConvertWith(entries, f).Ok?
    requires 0 <= i < |entries| && LastOfKey(entries, i)
    ensures Converts(entries, f, i)
    ensures ParseInt(entries[i].0).value in ConvertWith(entries, f).value
    ensures ConvertWith(entries, f).value[ParseInt(entries[i].0).value] == f(entries[i].1).value
    decreases |entries|
  {
    var n := |entries| - 1;
    assert forall j :: 0 <= j < n ==> entries[..n][j] == entries[j];
    assert forall j :: 0 <= j < n ==> (Converts(entries[..n], f, j) <==> Converts(entries, f, j));
    if i < n {
      assert LastOfKey(entries[..n], i);
      ConvertWithValue(entries[..n], f, i);
    }
  }

  /** The inner comprehension: button records keep their values. */
  function Same(b: Button): (r: Result<Button>)
    ensures r == Ok(b)
  {
    Ok(b)
  }

  /** The conversion of one deck's "buttons": page keys, then each page's
      button keys, through `int()`. */
  function ConvertPages(raw: seq<(string, seq<(string, Button)>)>): Result<Pages> {
    ConvertWith(raw, (row: seq<(string, Button)>) => ConvertWith(row, Same))
  }

  /** Entry `i` is the last one with its deck id. */
  predicate LastOfDeck(entries: seq<(string, RawDeck)>, i: int)
    requires 0 <= i < |entries|
  {
    forall j :: i < j < |entries| ==> entries[j].0 != entries[i].0
  }

  /** The loop of `_open_config` over the decks of "state", starting from an
      empty state: each deck's buttons are converted and the deck is stored.
      A key that is no integer ends the loop with that error and with the
      decks stored so far. */
  function LoadDecks(entries: seq<(string, RawDeck)>): (r: (Result<()>, Decks))
    ensures r.0.Ok? <==> forall i :: 0 <= i < |entries| ==> ConvertPages(entries[i].1.buttons).Ok?
    decreases |entries|
  {
    if |entries| == 0 then (Ok(()), map[])
    else
      var n := |entries| - 1;
      var (res, acc) := LoadDecks(entries[..n]);
      assert forall i :: 0 <= i < n ==> entries[..n][i] == entries[i];
      if res.Err? then (res, acc)
      else
        var pages := ConvertPages(entries[n].1.buttons);
        if pages.Err? then (Err(pages.error), acc)
        else (Ok(()), acc[entries[n].0 := Deck(pages.value, entries[n].1.settings)])
  }

  /** A file that loads holds exactly the decks it names. */
  lemma {:induction false} LoadDecksKeys(entries: seq<(string, RawDeck)>, d: string)
    requires LoadDecks(entries).0.Ok?
    ensures d in LoadDecks(entries).1 <==> exists i :: 0 <= i < |entries| && entries[i].0 == d
    decreases |entries|
  {
    if |entries| > 0 {
      var n := |entries| - 1;
      assert forall j :: 0 <= j < n ==> entries[..n][j] == entries[j];
      LoadDecksKeys(entries[..n], d);
    }
  }

  /** The last entry of a deck gives that deck: its converted buttons and
      its settings. */
  lemma {:induction false} LoadDecksValue(entries: seq<(string, RawDeck)>, i: int)
    requires LoadDecks(entries).0.Ok?
    requires 0 <= i < |entries| && LastOfDeck(entries, i)
    ensures ConvertPages(entries[i].1.buttons).Ok?
    ensures entries[i].0 in LoadDecks(entries).1
    ensures LoadDecks(entries).1[entries[i].0] == Deck(ConvertPages(entries[i].1.buttons).value, entries[i].1.settings)
    decreases |entries|
  {
    var n := |entries| - 1;
    assert forall j :: 0 <= j < n ==> entries[..n][j] == entries[j];
    if i < n {
      assert LastOfDeck(entries[..n], i);
      LoadDecksValue(entries[..n], i);
    }
  }

  /** A deck whose keys do not convert stops the loading: the error is its
      error, and the state holds the decks before it, as they were loaded. */
  lemma {:induction false} LoadDecksStops(entries: seq<(string, RawDeck)>, i: int)
    requires 0 <= i < |entries| && ConvertPages(entries[i].1.buttons).Err?
    requires forall j :: 0 <= j < i ==> ConvertPages(entries[j].1.buttons).Ok?
    ensures LoadDecks(entries).0 == Err(ConvertPages(entries[i].1.buttons).error)
    ensures LoadDecks(entries).1 == LoadDecks(entries[..i]).1
    decreases |entries|
  {
    var n := |entries| - 1;
    var prefix := entries[..n];
    LoadDecksLast(entries);
    if i < n {
      assert prefix[i] == entries[i];
      assert forall j :: 0 <= j < i ==> prefix[j] == entries[j];
      LoadDecksStops(prefix, i);
      assert prefix[..i] == entries[..i];
    } else {
      assert prefix == entries[..i];
      assert forall j :: 0 <= j < n ==> prefix[j] == entries[j];
    }
  }

  /** One unfolding of `LoadDecks`, component by component. */
  lemma LoadDecksLast(entries: seq<(string, RawDeck)>)
    requires |entries| > 0
    ensures var prefix := LoadDecks(entries[..|entries| - 1]);
            prefix.0.Err? ==> LoadDecks(entries).0 == prefix.0 && LoadDecks(entries).1 == prefix.1
    ensures var prefix := LoadDecks(entries[..|entries| - 1]);
            var pages := ConvertPages(entries[|entries| - 1].1.buttons);
            prefix.0.Ok? && pages.Err? ==> LoadDecks(entries).0 == Err(pages.error) && LoadDecks(entries).1 == prefix.1
  {
  }

  /** `_open_config` on the decoded file: a version other than
      `configVersion` (an absent one counts as 0) is a ValueError that leaves
      the state as it was; otherwise the state starts over empty, a missing
      "state" is a KeyError, and the decks are loaded. */
  function OpenConfig(config: RawConfig, configVersion: int, current: Decks): (r: (Result<()>, Decks))
    ensures config.version.GetOr(0) != configVersion ==> r.0.Err? && r.0.error.ValueError? && r.1 == current
    ensures config.version.GetOr(0) == configVersion && config.state.None? ==> r == (Err(KeyError("state")), map[])
    ensures config.version.GetOr(0) == configVersion && config.state.Some? ==> r == LoadDecks(config.state.value)
  {
    var version := config.version.GetOr(0);
    if version != configVersion then
      (Err(ValueError("Incompatible version of config file found: " + IntToString(version) +
                      " does not match required version " + IntToString(configVersion) + ".")), current)
    else if config.state.None? then (Err(KeyError("state")), map[])
    else LoadDecks(config.state.value)
  }

  /** `str(n)` is one-to-one, so distinct numbers give distinct keys. */
  lemma IntToStringInjective(a: int, b: int)
    requires IntToString(a) == IntToString(b)
    ensures a == b
  {
    ParseIntOfIntToString(a);
    ParseIntOfIntToString(b);
  }

  /** The entries saving writes for distinct integer keys: `str(key)` and
      the value. */
  function Written<X>(keys: seq<int>, values: seq<X>): (r: seq<(string, X)>)
    requires |keys| == |values|
    ensures |r| == |keys|
    ensures forall i :: 0 <= i < |r| ==> r[i] == (IntToString(keys[i]), values[i])
  {
    seq(|keys|, i requires 0 <= i < |keys| => (IntToString(keys[i]), values[i]))
  }

  /** Loading what saving wrote with distinct integer keys gives back every
      key with its converted value, and no other key. */
  lemma ConvertWritten<X, Y>(keys: seq<int>, values: seq<X>, f: X -> Result<Y>)
    requires |keys| == |values| && Unique(keys)
    requires forall i :: 0 <= i < |values| ==> f(values[i]).Ok?
    ensures var r := ConvertWith(Written(keys, values), f);
            r.Ok? &&
            (forall k :: k in r.value <==> k in keys) &&
            (forall i :: 0 <= i < |keys| ==> r.value[keys[i]] == f(values[i]).value)
  {
    var entries := Written(keys, values);
    forall i | 0 <= i < |entries|
      ensures ParseInt(entries[i].0) == Ok(keys[i])
    {
      ParseIntOfIntToString(keys[i]);
    }
    assert forall i :: 0 <= i < |entries| ==> Converts(entries, f, i);
    var r := ConvertWith(entries, f);
    forall k
      ensures k in r.value <==> k in keys
    {
      ConvertWithKeys(entries, f, k);
      if k in keys {
        var i :| 0 <= i < |keys| && keys[i] == k;
        assert ParseInt(entries[i].0) == Ok(k);
      }
    }
    forall i | 0 <= i < |keys|
      ensures r.value[keys[i]] == f(values[i]).value
    {
      assert LastOfKey(entries, i);
      ConvertWithValue(entries, f, i);
    }
  }

  class Api<D> {
    /** The global `state`. */
    var state: Decks
    /** serial number -> device. */
    var decks: map<string, D>
    /** device id -> serial number. */
    var deckIds: map<string, string>
    var displayHandlers: map<string, Handler>
    var saves: nat
    var brightnessCalls: seq<(string, int)>
    /** DEFAULT_FONT of the configuration module, which is not part of this model. */
    const defaultFont: Value

    constructor (defaultFont: Value)
      ensures this.defaultFont == defaultFont
      ensures state == map[] && decks == map[] && deckIds == map[] && displayHandlers == map[]
      ensures saves == 0 && brightnessCalls == []
    {
      this.defaultFont := defaultFont;
      state := map[];
      decks := map[];
      deckIds := map[];
      displayHandlers := map[];
      saves := 0;
      brightnessCalls := [];
    }

    /** `_open_config`: the state becomes what the file gives, a partial one
        when a deck's keys do not convert. */
    method Open(config: RawConfig, configVersion: int) returns (r: Result<()>)
      modifies this`state
      ensures (r, state) == OpenConfig(config, configVersion, old(state))
    {
      var loaded := OpenConfig(config, configVersion, state);
      r := loaded.0;
      state := loaded.1;
    }

    /** `_button_state`. */
    method GetButtonState(deck: string, page: int, button: int) returns (record: Button)
      modifies this`state
      ensures (record, state) == ButtonState(old(state), deck, page, button)
    {
      record := ButtonState(state, deck, page, button).0;
      state := ButtonState(state, deck, page, button).1;
    }

    /** The getters `get_button_text` and the others. */
    method GetButtonField(deck: string, page: int, button: int, f: Field) returns (v: Value)
      requires LegacyField(f)
      modifies this`state
      ensures state == ButtonState(old(state), deck, page, button).1
      ensures v == GetOr(ButtonState(old(state), deck, page, button).0, Key(f), Default(f))
    {
      var record := GetButtonState(deck, page, button);
      v := GetOr(record, Key(f), Default(f));
    }

    /** `update_button_filters`: a KeyError when the deck has no display
        handler; otherwise the record (created when missing) is turned into
        filters, which replace the button's filters in the handler. */
    method UpdateButtonFilters(deck: string, page: int, button: int) returns (r: Result<()>)
      modifies this`state, this`displayHandlers
      ensures r.Ok? <==> deck in old(displayHandlers)
      ensures r.Err? ==> state == old(state) && displayHandlers == old(displayHandlers)
      ensures r.Ok? ==>
                var (record, after) := ButtonState(old(state), deck, page, button);
                state == after &&
                displayHandlers == old(displayHandlers)[deck := Replace(old(displayHandlers)[deck], page, button, LegacyButtonFilters(record, defaultFont))]
    {
      if deck !in displayHandlers {
        return Err(KeyError(deck));
      }
      var record := GetButtonState(deck, page, button);
      displayHandlers := displayHandlers[deck := Replace(displayHandlers[deck], page, button, LegacyButtonFilters(record, defaultFont))];
      return Ok(());
    }

    /** The button setters: a different value is written and saved; the text
        and icon setters then refresh the button's filters, a KeyError when
        the deck has no display handler. */
    method SetButtonField(deck: string, page: int, button: int, f: Field, v: Value) returns (r: Result<()>)
      requires LegacyField(f)
      modifies this`state, this`saves, this`displayHandlers
      ensures state == SetField(old(state), deck, page, button, Key(f), v, Default(f)).0
      ensures saves == old(saves) + (if SetField(old(state), deck, page, button, Key(f), v, Default(f)).1 then 1 else 0)
      ensures !(SetField(old(state), deck, page, button, Key(f), v, Default(f)).1 && (f == Text || f == Icon)) ==>
                r.Ok? && displayHandlers == old(displayHandlers)
      ensures SetField(old(state), deck, page, button, Key(f), v, Default(f)).1 && (f == Text || f == Icon) ==>
                (r.Ok? <==> deck in old(displayHandlers)) &&
                displayHandlers == if deck in old(displayHandlers)
                                   then old(displayHandlers)[deck := Replace(old(displayHandlers)[deck], page, button,
                                                                            LegacyButtonFilters(At(state, deck, page, button), defaultFont))]
                                   else old(displayHandlers)
    {
      var (written, changed) := SetField(state, deck, page, button, Key(f), v, Default(f));
      state := written;
      if !changed {
        return Ok(());
      }
      saves := saves + 1;
      if !(f == Text || f == Icon) {
        return Ok(());
      }
      r := UpdateButtonFilters(deck, page, button);
    }

    /** `swap_buttons`: the two records trade places, the state is saved and
        both buttons get their filters again, a KeyError when the deck has
        no display handler. */
    method SwapButtons(deck: string, page: int, source: int, target: int) returns (r: Result<()>)
      modifies this`state, this`saves, this`displayHandlers
      ensures Swap(old(state), deck, page, source, target).Err? ==>
                r == Err(Swap(old(state), deck, page, source, target).error) &&
                state == old(state) && saves == old(saves) && displayHandlers == old(displayHandlers)
      ensures Swap(old(state), deck, page, source, target).Ok? ==>
                state == Swap(old(state), deck, page, source, target).value && saves == old(saves) + 1 &&
                (r.Ok? <==> deck in old(displayHandlers))
      ensures Swap(old(state), deck, page, source, target).Ok? && deck !in old(displayHandlers) ==>
                displayHandlers == old(displayHandlers)
      ensures Swap(old(state), deck, page, source, target).Ok? && deck in old(displayHandlers) ==>
                var swapped := Swap(old(state), deck, page, source, target).value;
                var h := old(displayHandlers)[deck];
                displayHandlers == old(displayHandlers)[deck := Replace(Replace(h, page, source, LegacyButtonFilters(At(swapped, deck, page, source), defaultFont)),
                                                                        page, target, LegacyButtonFilters(At(swapped, deck, page, target), defaultFont))]
    {
      var swapped := Swap(state, deck, page, source, target);
      if swapped.Err? {
        return Err(swapped.error);
      }
      state := swapped.value;
      saves := saves + 1;
      assert Present(state, deck, page, source) && Present(state, deck, page, target);
      r := UpdateButtonFilters(deck, page, source);
      if r.Err? {
        return;
      }
      r := UpdateButtonFilters(deck, page, target);
    }

    function GetBrightness(deck: string): (v: int)
      reads this
      ensures deck in state && "brightness" in state[deck].settings ==> v == state[deck].settings["brightness"]
      ensures !(deck in state && "brightness" in state[deck].settings) ==> v == 100
    {
      GetSetting(state, deck, "brightness", 100)
    }

    function GetBrightnessDimmed(deck: string): (v: int)
      reads this
      ensures deck in state && "brightness_dimmed" in state[deck].settings ==> v == state[deck].settings["brightness_dimmed"]
      ensures !(deck in state && "brightness_dimmed" in state[deck].settings) ==> v == 0
    {
      GetSetting(state, deck, "brightness_dimmed", 0)
    }

    function GetDisplayTimeout(deck: string): (v: int)
      reads this
      ensures deck in state && "display_timeout" in state[deck].settings ==> v == state[deck].settings["display_timeout"]
      ensures !(deck in state && "display_timeout" in state[deck].settings) ==> v == 0
    {
      GetSetting(state, deck, "display_timeout", 0)
    }

    function GetPage(deck: string): (v: int)
      reads this
      ensures deck in state && "page" in state[deck].settings ==> v == state[deck].settings["page"]
      ensures !(deck in state && "page" in state[deck].settings) ==> v == 0
    {
      GetSetting(state, deck, "page", 0)
    }

    /** `set_display_timeout` and `set_brightness_dimmed`: the setting is
        stored and saved, changed or not. */
    method SetDeckSetting(deck: string, key: string, v: int)
      requires key == "display_timeout" || key == "brightness_dimmed"
      modifies this`state, this`saves
      ensures state == PutSetting(old(state), deck, key, v) && saves == old(saves) + 1
      ensures key == "display_timeout" ==> GetDisplayTimeout(deck) == v
      ensures key == "brightness_dimmed" ==> GetBrightnessDimmed(deck) == v
    {
      state := PutSetting(state, deck, key, v);
      saves := saves + 1;
    }

    /** `set_brightness`: a different value goes to the device (a KeyError
        when it is not attached), into the state, and is saved. */
    method SetBrightness(deck: string, brightness: int) returns (r: Result<()>)
      modifies this`state, this`saves, this`brightnessCalls
      ensures old(GetBrightness(deck)) == brightness ==>
                r.Ok? && state == old(state) && saves == old(saves) && brightnessCalls == old(brightnessCalls)
      ensures old(GetBrightness(deck)) != brightness && deck !in decks ==>
                r.Err? && state == old(state) && saves == old(saves) && brightnessCalls == old(brightnessCalls)
      ensures old(GetBrightness(deck)) != brightness && deck in decks ==>
                r.Ok? && state == PutSetting(old(state), deck, "brightness", brightness) &&
                saves == old(saves) + 1 && brightnessCalls == old(brightnessCalls) + [(deck, brightness)]
    {
      if GetBrightness(deck) == brightness {
        return Ok(());
      }
      if deck !in decks {
        return Err(KeyError(deck));
      }
      brightnessCalls := brightnessCalls + [(deck, brightness)];
      state := PutSetting(state, deck, "brightness", brightness);
      saves := saves + 1;
      return Ok(());
    }

    /** `change_brightness`: the stored brightness moves by `amount`, clamped
        to [0, 100]. */
    method ChangeBrightness(deck: string, amount: int) returns (r: Result<()>)
      modifies this`state, this`saves, this`brightnessCalls
      ensures var b := Clamp(old(GetBrightness(deck)) + amount);
              (r.Ok? <==> old(GetBrightness(deck)) == b || deck in decks) &&
              (r.Ok? ==> GetBrightness(deck) == b && 0 <= GetBrightness(deck) <= 100) &&
              (r.Err? ==> state == old(state))
      ensures var b := Clamp(old(GetBrightness(deck)) + amount);
              var stored := old(GetBrightness(deck)) != b && deck in decks;
              state == (if stored then PutSetting(old(state), deck, "brightness", b) else old(state)) &&
              saves == old(saves) + (if stored then 1 else 0) &&
              brightnessCalls == old(brightnessCalls) + (if stored then [(deck, b)] else [])
    {
      var brightness := Clamp(GetBrightness(deck) + amount);
      r := SetBrightness(deck, brightness);
    }

    /** `set_page`: a different page is stored and saved; then the display
        handler is told (a KeyError when the deck has none). */
    method SetPage(deck: string, page: int) returns (r: Result<()>)
      modifies this`state, this`saves, this`displayHandlers
      ensures state == if old(GetPage(deck)) != page then PutSetting(old(state), deck, "page", page) else old(state)
      ensures saves == old(saves) + if old(GetPage(deck)) != page then 1 else 0
      ensures GetPage(deck) == page
      ensures r.Ok? <==> deck in displayHandlers
      ensures displayHandlers == if deck in old(displayHandlers) then old(displayHandlers)[deck := old(displayHandlers)[deck].(page := page)]
                                 else old(displayHandlers)
    {
      if GetPage(deck) != page {
        state := PutSetting(state, deck, "page", page);
        saves := saves + 1;
      }
      if deck !in displayHandlers {
        return Err(KeyError(deck));
      }
      displayHandlers := displayHandlers[deck := displayHandlers[deck].(page := page)];
      return Ok(());
    }

    /** `initialize_state`. */
    method InitializeDeck(serial: string, buttons: int)
      modifies this`state
      ensures forall p, q :: 0 <= p < 10 && 0 <= q < buttons ==> Present(state, serial, p, q)
      ensures Initialized(old(state), state, serial, buttons)
    {
      state := InitializeState(state, serial, buttons);
    }

    /** `update_streamdeck_filters`: for an attached deck with settings, the
        display handler (a new one when there is none) is set to the stored
        page, every button record of the deck is turned into filters, and the
        handler is started. `order` is the order the records are visited in. */
    method UpdateStreamdeckFilters(serial: string, order: seq<(int, int)>)
      requires Unique(order)
      requires forall p, q :: Present(state, serial, p, q) <==> (p, q) in order
      modifies this`displayHandlers
      ensures !(serial in state && serial in decks) ==> displayHandlers == old(displayHandlers)
      ensures serial in state && serial in decks ==>
                serial in displayHandlers && displayHandlers[serial].page == GetPage(serial) &&
                displayHandlers[serial].started &&
                (forall p, q :: Present(state, serial, p, q) ==>
                   (p, q) in displayHandlers[serial].filters &&
                   displayHandlers[serial].filters[(p, q)] == LegacyButtonFilters(At(state, serial, p, q), defaultFont)) &&
                (forall s :: s != serial ==> (s in displayHandlers <==> s in old(displayHandlers))) &&
                (forall s :: s != serial && s in old(displayHandlers) ==> displayHandlers[s] == old(displayHandlers)[s])
    {
      if !(serial in state && serial in decks) {
        return;
      }
      var handler := if serial in displayHandlers then displayHandlers[serial] else Handler(0, false, map[]);
      handler := handler.(page := GetPage(serial));
      displayHandlers := displayHandlers[serial := handler];
      var i := 0;
      while i < |order|
        invariant 0 <= i <= |order|
        invariant serial in displayHandlers && displayHandlers[serial].page == GetPage(serial)
        invariant forall s :: s != serial ==> (s in displayHandlers <==> s in old(displayHandlers))
        invariant forall s :: s != serial && s in old(displayHandlers) ==> displayHandlers[s] == old(displayHandlers)[s]
        invariant forall j :: 0 <= j < i ==>
                    order[j] in displayHandlers[serial].filters &&
                    displayHandlers[serial].filters[order[j]] == LegacyButtonFilters(At(state, serial, order[j].0, order[j].1), defaultFont)
      {
        var (p, q) := order[i];
        assert Present(state, serial, p, q);
        displayHandlers := displayHandlers[serial := Replace(displayHandlers[serial], p, q, LegacyButtonFilters(At(state, serial, p, q), defaultFont))];
        assert forall j :: 0 <= j < i ==> order[j] != (p, q);
        i := i + 1;
      }
      displayHandlers := displayHandlers[serial := displayHandlers[serial].(started := true)];
      forall p, q | Present(state, serial, p, q)
        ensures (p, q) in displayHandlers[serial].filters
        ensures displayHandlers[serial].filters[(p, q)] == LegacyButtonFilters(At(state, serial, p, q), defaultFont)
      {
        var j :| 0 <= j < |order| && order[j] == (p, q);
      }
    }

    /** `attached`: the device is registered under its serial number, its
        records are created and its filters are pushed to its display
        handler. `order` is the order `update_streamdeck_filters` visits the
        records in. */
    method Attached(id: string, device: D, serial: string, keyCount: int, order: seq<(int, int)>)
      requires Unique(order)
      requires forall p, q :: (Present(state, serial, p, q) || (0 <= p < 10 && 0 <= q < keyCount)) <==> (p, q) in order
      modifies this`state, this`decks, this`deckIds, this`displayHandlers
      ensures deckIds == old(deckIds)[id := serial] && decks == old(decks)[serial := device]
      ensures Initialized(old(state), state, serial, keyCount)
      ensures forall p, q :: 0 <= p < 10 && 0 <= q < keyCount ==> Present(state, serial, p, q)
      ensures serial !in state ==> displayHandlers == old(displayHandlers)
      ensures serial in state ==>
                serial in displayHandlers && displayHandlers[serial].started &&
                displayHandlers[serial].page == GetPage(serial) &&
                forall p, q :: Present(state, serial, p, q) ==>
                  (p, q) in displayHandlers[serial].filters &&
                  displayHandlers[serial].filters[(p, q)] == LegacyButtonFilters(At(state, serial, p, q), defaultFont)
      ensures forall s :: s != serial ==> (s in displayHandlers <==> s in old(displayHandlers))
      ensures forall s :: s != serial && s in old(displayHandlers) ==> displayHandlers[s] == old(displayHandlers)[s]
    {
      deckIds := deckIds[id := serial];
      decks := decks[serial := device];
      var before := state;
      InitializeDeck(serial, keyCount);
      InitializedRecords(before, state, serial, keyCount, order);
      UpdateStreamdeckFilters(serial, order);
    }

    /** `detatched`: an id with a (non-empty) serial number is cleaned up;
        any other id is ignored. */
    method Detatched(id: string, connected: bool) returns (r: Result<()>)
      modifies this`displayHandlers, this`decks, this`deckIds, this`brightnessCalls
      ensures !(id in old(deckIds) && old(deckIds)[id] != "") ==>
                r.Ok? && displayHandlers == old(displayHandlers) &&
                decks == old(decks) && deckIds == old(deckIds) && brightnessCalls == old(brightnessCalls)
      ensures id in old(deckIds) && old(deckIds)[id] != "" ==> CleanedUp(old(deckIds)[id], id, r)
    {
      if id !in deckIds || deckIds[id] == "" {
        return Ok(());
      }
      r := Cleanup(id, deckIds[id], connected);
    }

    /** The registry after `cleanup(id, serial)` ran to the end. */
    ghost predicate CleanedUp(serial: string, id: string, r: Result<()>)
      reads this
    {
      r.Ok? ==> serial !in displayHandlers && serial !in decks && id !in deckIds
    }

    /** `cleanup`: the display handler is stopped and dropped, a connected
        device is set to brightness 50 (its reset and close, and any error
        they raise, which is caught, are not modelled), and the device and
        its id are dropped. A missing entry is a KeyError that leaves the
        entries dropped so far dropped. */
    method Cleanup(id: string, serial: string, connected: bool) returns (r: Result<()>)
      modifies this`displayHandlers, this`decks, this`deckIds, this`brightnessCalls
      ensures r.Ok? <==> serial in old(displayHandlers) && serial in old(decks) && id in old(deckIds)
      ensures displayHandlers == old(displayHandlers) - {serial}
      ensures var reached := serial in old(displayHandlers) && serial in old(decks);
              decks == (if reached then old(decks) - {serial} else old(decks)) &&
              brightnessCalls == old(brightnessCalls) + (if reached && connected then [(serial, 50)] else []) &&
              deckIds == (if reached then old(deckIds) - {id} else old(deckIds))
    {
      if serial !in displayHandlers {
        return Err(KeyError(serial));
      }
      displayHandlers := displayHandlers - {serial};
      if serial !in decks {
        return Err(KeyError(serial));
      }
      if connected {
        brightnessCalls := brightnessCalls + [(serial, 50)];
      }
      decks := decks - {serial};
      if id !in deckIds {
        return Err(KeyError(id));
      }
      deckIds := deckIds - {id};
      return Ok(());
    }
  }
}
