/** The server object of the Home Assistant edition
    (streamdeck_ui_hass/api.py, class `StreamDeckServer`): the configuration
    state, the device registry and the dimmers, one per deck.

    The devices themselves are an abstract type `D`; of their methods only
    `set_brightness` has an effect here, recorded in `brightnessCalls`. The
    display handlers are abstract too (the `DisplayGrid` methods this class
    calls, `replace` and `synchronize` among them, are not the ones of
    streamdeck_ui/display/display_grid.py), so a handler is a value holding
    what the server told it: its page, whether it was started, and the filters
    it was given per (page, button). Saving the state to its file is the
    counter `saves`. */
module HassApi {
  import opened Wrappers
  import opened Configs
  import opened Dimmers

  /** `_key_change_callback` is not modelled; the setters of the Home
      Assistant fields are ignored while a button is being clicked. */
  predicate Guarded(f: Field) {
    f == HassDomain || f == HassEntity || f == HassService
  }

  /** The setters that push new filters to the display after a change. */
  predicate Refreshes(f: Field) {
    f == Text || f == Icon || f == TextVerticalAlign || f == HassDomain || f == HassEntity
  }

  /** The dimmed flag of every dimmer, which `toggle_dimmers` reads. */
  ghost predicate AllDimmed(dimmers: map<string, Dimmer>)
    reads dimmers.Values
  {
    forall s :: s in dimmers ==> dimmers[s].dimmed
  }

  /** `toggle_dimmers` dims every awake dimmer whose timer is armed when at
      least one dimmer is awake, and wakes every dimmed, running one
      otherwise. */
  lemma ToggleOutcome(before: DimmerState, allDimmed: bool)
    requires Inv(before)
    ensures var after := DimStep(before, allDimmed).next;
            (!allDimmed && !before.stopped && before.timerArmed ==> after.dimmed) &&
            (allDimmed && before.dimmed && !before.stopped ==> !after.dimmed && after.timerArmed == (before.timeout != 0)) &&
            (before.stopped ==> after == before)
  {
  }

  /** What `update_button_filters` does to the display handlers once the
      button's record is known: nothing without a handler for the deck;
      otherwise the record's filters replace the button's, or building them
      fails and nothing changes. */
  function Refreshed(handlers: map<string, Handler>, deck: string, page: int, button: int, record: Button, defaultFont: Value)
    : (r: (Result<()>, map<string, Handler>))
    ensures r.0.Err? <==> deck in handlers && ButtonFilters(record, defaultFont).Err?
    ensures r.0.Err? ==> r.0 == Err(ButtonFilters(record, defaultFont).error) && r.1 == handlers
    ensures deck !in handlers ==> r.1 == handlers
    ensures deck in handlers && r.0.Ok? ==>
              r.1.Keys == handlers.Keys && r.1[deck] == Replace(handlers[deck], page, button, ButtonFilters(record, defaultFont).value) &&
              forall d :: d in handlers && d != deck ==> r.1[d] == handlers[d]
  {
    if deck !in handlers then (Ok(()), handlers)
    else
      var filters := ButtonFilters(record, defaultFont);
      if filters.Err? then (Err(filters.error), handlers)
      else (Ok(()), handlers[deck := Replace(handlers[deck], page, button, filters.value)])
  }

  class StreamDeckServer<D> {
    /** `state["decks"]`. */
    var state: Decks
    /** serial number -> device. */
    var decks: map<string, D>
    /** device id -> serial number. */
    var deckIds: map<string, string>
    var displayHandlers: map<string, Handler>
    var dimmers: map<string, Dimmer>
    var buttonClicked: bool
    var saves: nat
    var brightnessCalls: seq<(string, int)>
    /** DEFAULT_FONT of the configuration module, which is not part of this model. */
    const defaultFont: Value

    /** Every deck has a dimmer of its own. */
    ghost predicate Valid()
      reads this
    {
      forall a, b :: a in dimmers && b in dimmers && a != b ==> dimmers[a] != dimmers[b]
    }

    constructor (defaultFont: Value)
      ensures Valid() && this.defaultFont == defaultFont
      ensures state == map[] && decks == map[] && deckIds == map[] && displayHandlers == map[]
      ensures dimmers == map[] && !buttonClicked && saves == 0 && brightnessCalls == []
    {
      this.defaultFont := defaultFont;
      state := map[];
      decks := map[];
      deckIds := map[];
      displayHandlers := map[];
      dimmers := map[];
      buttonClicked := false;
      saves := 0;
      brightnessCalls := [];
    }

    /** `_button_state`. */
    method GetButtonState(deck: string, page: int, button: int) returns (record: Button)
      modifies this`state
      ensures (record, state) == ButtonState(old(state), deck, page, button)
    {
      record := ButtonState(state, deck, page, button).0;
      state := ButtonState(state, deck, page, button).1;
    }

    /** The getters `get_button_text` and the others: `_button_state(...)
        .get(key, default)`, which creates the record when it is missing. */
    method GetButtonField(deck: string, page: int, button: int, f: Field) returns (v: Value)
      modifies this`state
      ensures state == ButtonState(old(state), deck, page, button).1
      ensures v == GetOr(ButtonState(old(state), deck, page, button).0, Key(f), Default(f))
    {
      var record := GetButtonState(deck, page, button);
      v := GetOr(record, Key(f), Default(f));
    }

    /** `update_button_filters`: nothing without a display handler; otherwise
        the record (created when missing) is turned into filters, which
        replace the button's filters in the handler. */
    method UpdateButtonFilters(deck: string, page: int, button: int) returns (r: Result<()>)
      modifies this`state, this`displayHandlers
      ensures state == if deck in old(displayHandlers) then ButtonState(old(state), deck, page, button).1 else old(state)
      ensures r == Refreshed(old(displayHandlers), deck, page, button, ButtonState(old(state), deck, page, button).0, defaultFont).0
      ensures displayHandlers == Refreshed(old(displayHandlers), deck, page, button, ButtonState(old(state), deck, page, button).0, defaultFont).1
    {
      if deck !in displayHandlers {
        return Ok(());
      }
      var record := GetButtonState(deck, page, button);
      var filters := ButtonFilters(record, defaultFont);
      if filters.Err? {
        return Err(filters.error);
      }
      displayHandlers := displayHandlers[deck := Replace(displayHandlers[deck], page, button, filters.value)];
      return Ok(());
    }

    /** The button setters. The Home Assistant ones do nothing while a button
        is being clicked. A different value is written and saved, and the
        setters of displayed fields then refresh the button's filters. */
    method SetButtonField(deck: string, page: int, button: int, f: Field, v: Value) returns (r: Result<()>)
      modifies this`state, this`saves, this`displayHandlers
      ensures Guarded(f) && buttonClicked ==>
                r.Ok? && state == old(state) && saves == old(saves) && displayHandlers == old(displayHandlers)
      ensures !(Guarded(f) && buttonClicked) ==>
                saves == old(saves) + (if SetField(old(state), deck, page, button, Key(f), v, Default(f)).1 then 1 else 0) &&
                state == SetField(old(state), deck, page, button, Key(f), v, Default(f)).0
      ensures !(Guarded(f) && buttonClicked) && !(SetField(old(state), deck, page, button, Key(f), v, Default(f)).1 && Refreshes(f)) ==>
                r.Ok? && displayHandlers == old(displayHandlers)
      ensures !(Guarded(f) && buttonClicked) && SetField(old(state), deck, page, button, Key(f), v, Default(f)).1 && Refreshes(f) ==>
                r == Refreshed(old(displayHandlers), deck, page, button, At(state, deck, page, button), defaultFont).0 &&
                displayHandlers == Refreshed(old(displayHandlers), deck, page, button, At(state, deck, page, button), defaultFont).1
    {
      if Guarded(f) && buttonClicked {
        return Ok(());
      }
      r := WriteField(deck, page, button, Key(f), v, Default(f), Refreshes(f));
    }

    /** The common part of the button setters: the value is written under
        `key`; when it changed, the state is saved and, for a displayed
        field, the button's filters are refreshed. */
    method WriteField(deck: string, page: int, button: int, key: string, v: Value, default: Value, refresh: bool)
      returns (r: Result<()>)
      modifies this`state, this`saves, this`displayHandlers
      ensures state == SetField(old(state), deck, page, button, key, v, default).0
      ensures saves == old(saves) + (if SetField(old(state), deck, page, button, key, v, default).1 then 1 else 0)
      ensures !(SetField(old(state), deck, page, button, key, v, default).1 && refresh) ==>
                r.Ok? && displayHandlers == old(displayHandlers)
      ensures SetField(old(state), deck, page, button, key, v, default).1 && refresh ==>
                r == Refreshed(old(displayHandlers), deck, page, button, At(state, deck, page, button), defaultFont).0 &&
                displayHandlers == Refreshed(old(displayHandlers), deck, page, button, At(state, deck, page, button), defaultFont).1
    {
      var (written, changed) := SetField(state, deck, page, button, key, v, default);
      state := written;
      if !changed {
        return Ok(());
      }
      saves := saves + 1;
      if !refresh {
        return Ok(());
      }
      assert ButtonState(state, deck, page, button).1 == written;
      r := UpdateButtonFilters(deck, page, button);
    }

    /** `swap_buttons`: the two records trade places, the state is saved and
        both buttons get their filters again. */
    method SwapButtons(deck: string, page: int, source: int, target: int) returns (r: Result<()>)
      modifies this`state, this`saves, this`displayHandlers
      ensures Swap(old(state), deck, page, source, target).Err? ==>
                r == Err(Swap(old(state), deck, page, source, target).error) &&
                state == old(state) && saves == old(saves) && displayHandlers == old(displayHandlers)
      ensures Swap(old(state), deck, page, source, target).Ok? ==>
                state == Swap(old(state), deck, page, source, target).value && saves == old(saves) + 1
      ensures Swap(old(state), deck, page, source, target).Ok? ==>
                var swapped := Swap(old(state), deck, page, source, target).value;
                var first := Refreshed(old(displayHandlers), deck, page, source, At(swapped, deck, page, source), defaultFont);
                (first.0.Err? ==> r == first.0 && displayHandlers == first.1) &&
                (first.0.Ok? ==>
                   var second := Refreshed(first.1, deck, page, target, At(swapped, deck, page, target), defaultFont);
                   r == second.0 && displayHandlers == second.1)
    {
      var swapped := Swap(state, deck, page, source, target);
      if swapped.Err? {
        return Err(swapped.error);
      }
      state := swapped.value;
      saves := saves + 1;
      assert Present(state, deck, page, source) && Present(state, deck, page, target);
      assert ButtonState(state, deck, page, source).1 == state;
      r := UpdateButtonFilters(deck, page, source);
      assert state == swapped.value;
      if r.Err? {
        return;
      }
      assert ButtonState(state, deck, page, target).1 == state;
      r := UpdateButtonFilters(deck, page, target);
      assert state == swapped.value;
    }

    function GetBrightness(deck: string): (v: int)
      reads this
      ensures deck in state && "brightness" in state[deck].settings ==> v == state[deck].settings["brightness"]
      ensures !(deck in state && "brightness" in state[deck].settings) ==> v == 100
    {
      GetSetting(state, deck, "brightness", 100)
    }

    function GetBrightnessDimmed(deck: string): (v: int)
      reads this
      ensures deck in state && "brightness_dimmed" in state[deck].settings ==> v == state[deck].settings["brightness_dimmed"]
      ensures !(deck in state && "brightness_dimmed" in state[deck].settings) ==> v == 0
    {
      GetSetting(state, deck, "brightness_dimmed", 0)
    }

    function GetDisplayTimeout(deck: string): (v: int)
      reads this
      ensures deck in state && "display_timeout" in state[deck].settings ==> v == state[deck].settings["display_timeout"]
      ensures !(deck in state && "display_timeout" in state[deck].settings) ==> v == 0
    {
      GetSetting(state, deck, "display_timeout", 0)
    }

    function GetPage(deck: string): (v: int)
      reads this
      ensures deck in state && "page" in state[deck].settings ==> v == state[deck].settings["page"]
      ensures !(deck in state && "page" in state[deck].settings) ==> v == 0
    {
      GetSetting(state, deck, "page", 0)
    }

    /** `set_brightness`: a different value goes to the device (a KeyError
        when it is not attached), into the state, and is saved. */
    method SetBrightness(deck: string, brightness: int) returns (r: Result<()>)
      modifies this`state, this`saves, this`brightnessCalls
      ensures old(GetBrightness(deck)) == brightness ==>
                r.Ok? && state == old(state) && saves == old(saves) && brightnessCalls == old(brightnessCalls)
      ensures old(GetBrightness(deck)) != brightness && deck !in decks ==>
                r.Err? && state == old(state) && saves == old(saves) && brightnessCalls == old(brightnessCalls)
      ensures old(GetBrightness(deck)) != brightness && deck in decks ==>
                r.Ok? && state == PutSetting(old(state), deck, "brightness", brightness) &&
                saves == old(saves) + 1 && brightnessCalls == old(brightnessCalls) + [(deck, brightness)]
    {
      if GetBrightness(deck) == brightness {
        return Ok(());
      }
      if deck !in decks {
        return Err(KeyError(deck));
      }
      brightnessCalls := brightnessCalls + [(deck, brightness)];
      state := PutSetting(state, deck, "brightness", brightness);
      saves := saves + 1;
      return Ok(());
    }

    /** `change_brightness`: the stored brightness moves by `amount` and is
        clamped to [0, 100]; the deck's dimmer takes the new value and is
        reset. */
    method ChangeBrightness(deck: string, amount: int) returns (r: Result<()>)
      requires Valid()
      modifies this`state, this`saves, this`brightnessCalls, if deck in dimmers then {dimmers[deck]} else {}
      ensures Valid()
      ensures var b := Clamp(old(GetBrightness(deck)) + amount);
              (old(GetBrightness(deck)) == b || deck in decks) ==>
                GetBrightness(deck) == b && 0 <= GetBrightness(deck) <= 100
      ensures var b := Clamp(old(GetBrightness(deck)) + amount);
              var stored := old(GetBrightness(deck)) != b && deck in decks;
              state == (if stored then PutSetting(old(state), deck, "brightness", b) else old(state)) &&
              saves == old(saves) + (if stored then 1 else 0) &&
              brightnessCalls == old(brightnessCalls) + (if stored then [(deck, b)] else [])
      ensures r.Err? && deck in dimmers ==>
                dimmers[deck].State() == old(dimmers[deck].State()) && dimmers[deck].calls == old(dimmers[deck].calls)
      ensures r.Ok? <==> (old(GetBrightness(deck)) == Clamp(old(GetBrightness(deck)) + amount) || deck in decks) &&
                         deck in dimmers
      ensures r.Ok? ==> var b := Clamp(old(GetBrightness(deck)) + amount);
                dimmers[deck].State() == ResetStep(old(dimmers[deck].State()).(brightness := b)).next &&
                dimmers[deck].calls == old(dimmers[deck].calls) + ResetStep(old(dimmers[deck].State()).(brightness := b)).callbacks
    {
      var brightness := Clamp(GetBrightness(deck) + amount);
      r := SetBrightness(deck, brightness);
      if r.Err? {
        return;
      }
      assert GetBrightness(deck) == brightness;
      if deck !in dimmers {
        return Err(KeyError(deck));
      }
      var dimmer := dimmers[deck];
      dimmer.brightness := brightness;
      var _ := dimmer.Reset();
    }

    /** `reset_dimmer`: the dimmer takes the stored brightness settings and is
        reset; the answer is whether that woke it. */
    method ResetDimmer(deck: string) returns (r: Result<bool>)
      requires Valid()
      modifies if deck in dimmers then {dimmers[deck]} else {}
      ensures Valid()
      ensures r.Ok? <==> deck in dimmers
      ensures r.Ok? ==>
                var before := old(dimmers[deck].State()).(brightness := GetBrightness(deck), brightnessDimmed := GetBrightnessDimmed(deck));
                dimmers[deck].State() == ResetStep(before).next &&
                dimmers[deck].calls == old(dimmers[deck].calls) + ResetStep(before).callbacks &&
                r.value == ResetStep(before).woke
    {
      if deck !in dimmers {
        return Err(KeyError(deck));
      }
      var dimmer := dimmers[deck];
      dimmer.brightness := GetBrightness(deck);
      dimmer.brightnessDimmed := GetBrightnessDimmed(deck);
      var woke := dimmer.Reset();
      return Ok(woke);
    }

    /** The first loop of `toggle_dimmers`: whether some dimmer is awake. */
    method SomeAwake(order: seq<string>) returns (atLeastOne: bool)
      requires Enumerates(order, dimmers.Keys)
      ensures atLeastOne <==> !AllDimmed(dimmers)
    {
      atLeastOne := false;
      var i := 0;
      while i < |order|
        invariant 0 <= i <= |order|
        invariant forall j :: 0 <= j < i ==> dimmers[order[j]].dimmed
      {
        if !dimmers[order[i]].dimmed {
          atLeastOne := true;
          return;
        }
        i := i + 1;
      }
      assert forall s :: s in dimmers ==> exists j :: 0 <= j < |order| && order[j] == s;
    }

    /** The second loop of `toggle_dimmers`: every dimmer takes the same dim
        step. */
    method DimEach(order: seq<string>, toggle: bool)
      requires Valid() && Enumerates(order, dimmers.Keys)
      modifies dimmers.Values
      ensures forall s :: s in dimmers ==>
                dimmers[s].State() == DimStep(old(dimmers[s].State()), toggle).next &&
                dimmers[s].calls == old(dimmers[s].calls) + DimStep(old(dimmers[s].State()), toggle).callbacks
    {
      var i := 0;
      while i < |order|
        invariant 0 <= i <= |order|
        invariant forall j :: 0 <= j < i ==>
                    dimmers[order[j]].State() == DimStep(old(dimmers[order[j]].State()), toggle).next &&
                    dimmers[order[j]].calls == old(dimmers[order[j]].calls) + DimStep(old(dimmers[order[j]].State()), toggle).callbacks
        invariant forall j :: i <= j < |order| ==>
                    dimmers[order[j]].State() == old(dimmers[order[j]].State()) &&
                    dimmers[order[j]].calls == old(dimmers[order[j]].calls)
      {
        var dimmer := dimmers[order[i]];
        assert forall j :: 0 <= j < |order| && j != i ==> dimmers[order[j]] != dimmer;
        dimmer.Dim(toggle);
        i := i + 1;
      }
      assert forall s :: s in dimmers ==> exists j :: 0 <= j < |order| && order[j] == s;
    }

    /** `toggle_dimmers` as written: the first loop reads `dimmer.dimmed`,
        but `Dimmer` keeps that flag under the mangled name `_Dimmer__dimmed`,
        so the lookup raises AttributeError at the first dimmer and no dimmer
        changes. With no dimmers both loops are empty. */
    method ToggleDimmersAsWritten(order: seq<string>) returns (r: Result<()>)
      requires Enumerates(order, dimmers.Keys)
      ensures r.Err? <==> |order| > 0
      ensures r.Err? ==> r.error == AttributeError("dimmed")
    {
      if |order| > 0 {
        return Err(AttributeError("dimmed"));
      }
      return Ok(());
    }

    /** `toggle_dimmers` as intended, reading each dimmer's flag: when at
        least one dimmer is not dimmed, every dimmer gets `dim()`; when all
        are dimmed, every one gets `dim(True)`. `order` is the order the
        dictionary yields the dimmers in. */
    method ToggleDimmers(order: seq<string>)
      requires Valid() && Enumerates(order, dimmers.Keys)
      modifies dimmers.Values
      ensures Valid()
      ensures forall s :: s in dimmers ==>
                dimmers[s].State() == DimStep(old(dimmers[s].State()), old(AllDimmed(dimmers))).next &&
                dimmers[s].calls == old(dimmers[s].calls) + DimStep(old(dimmers[s].State()), old(AllDimmed(dimmers))).callbacks
    {
      var atLeastOne := SomeAwake(order);
      DimEach(order, !atLeastOne);
    }

    /** `set_page`: a different page is stored and saved; then the display
        handler is told (a KeyError when the deck has none). */
    method SetPage(deck: string, page: int) returns (r: Result<()>)
      modifies this`state, this`saves, this`displayHandlers
      ensures state == if old(GetPage(deck)) != page then PutSetting(old(state), deck, "page", page) else old(state)
      ensures saves == old(saves) + if old(GetPage(deck)) != page then 1 else 0
      ensures GetPage(deck) == page
      ensures r.Ok? <==> deck in displayHandlers
      ensures displayHandlers == if deck in old(displayHandlers) then old(displayHandlers)[deck := old(displayHandlers)[deck].(page := page)]
                                 else old(displayHandlers)
    {
      if GetPage(deck) != page {
        state := PutSetting(state, deck, "page", page);
        saves := saves + 1;
      }
      if deck !in displayHandlers {
        return Err(KeyError(deck));
      }
      displayHandlers := displayHandlers[deck := displayHandlers[deck].(page := page)];
      return Ok(());
    }

    /** `initialize_state`. */
    method InitializeDeck(serial: string, buttons: int)
      modifies this`state
      ensures forall p, q :: 0 <= p < 10 && 0 <= q < buttons ==> Present(state, serial, p, q)
      ensures Initialized(old(state), state, serial, buttons)
    {
      state := InitializeState(state, serial, buttons);
    }

    /** `update_streamdeck_filters`: for an attached deck with settings, the
        display handler (a new one when there is none) is set to the stored
        page, every button record of the deck is turned into filters, and the
        handler is started. `order` is the order the records are visited in.
        A button whose filters cannot be built stops the pass. */
    method UpdateStreamdeckFilters(serial: string, order: seq<(int, int)>) returns (r: Result<()>)
      requires Unique(order)
      requires forall p, q :: Present(state, serial, p, q) <==> (p, q) in order
      modifies this`displayHandlers
      ensures !(serial in state && serial in decks) ==> r.Ok? && displayHandlers == old(displayHandlers)
      ensures serial in state && serial in decks ==>
                serial in displayHandlers && displayHandlers[serial].page == GetPage(serial) &&
                (forall s :: s != serial ==> (s in displayHandlers <==> s in old(displayHandlers))) &&
                (forall s :: s != serial && s in old(displayHandlers) ==> displayHandlers[s] == old(displayHandlers)[s])
      ensures serial in state && serial in decks && r.Ok? ==>
                displayHandlers[serial].started &&
                forall p, q :: Present(state, serial, p, q) ==>
                  (p, q) in displayHandlers[serial].filters &&
                  Ok(displayHandlers[serial].filters[(p, q)]) == ButtonFilters(At(state, serial, p, q), defaultFont)
      ensures r.Err? ==> exists p, q :: Present(state, serial, p, q) && ButtonFilters(At(state, serial, p, q), defaultFont).Err?
    {
      if !(serial in state && serial in decks) {
        return Ok(());
      }
      var handler := if serial in displayHandlers then displayHandlers[serial] else Handler(0, false, map[]);
      handler := handler.(page := GetPage(serial));
      displayHandlers := displayHandlers[serial := handler];
      var i := 0;
      while i < |order|
        invariant 0 <= i <= |order|
        invariant serial in displayHandlers && displayHandlers[serial].page == GetPage(serial)
        invariant forall s :: s != serial ==> (s in displayHandlers <==> s in old(displayHandlers))
        invariant forall s :: s != serial && s in old(displayHandlers) ==> displayHandlers[s] == old(displayHandlers)[s]
        invariant forall j :: 0 <= j < i ==>
                    order[j] in displayHandlers[serial].filters &&
                    Ok(displayHandlers[serial].filters[order[j]]) == ButtonFilters(At(state, serial, order[j].0, order[j].1), defaultFont)
      {
        var (p, q) := order[i];
        assert Present(state, serial, p, q);
        var filters := ButtonFilters(At(state, serial, p, q), defaultFont);
        if filters.Err? {
          return Err(filters.error);
        }
        displayHandlers := displayHandlers[serial := Replace(displayHandlers[serial], p, q, filters.value)];
        assert forall j :: 0 <= j < i ==> order[j] != (p, q);
        i := i + 1;
      }
      displayHandlers := displayHandlers[serial := displayHandlers[serial].(started := true)];
      forall p, q | Present(state, serial, p, q)
        ensures (p, q) in displayHandlers[serial].filters
        ensures Ok(displayHandlers[serial].filters[(p, q)]) == ButtonFilters(At(state, serial, p, q), defaultFont)
      {
        var j :| 0 <= j < |order| && order[j] == (p, q);
      }
      return Ok(());
    }

    /** `detached`: an id with a (non-empty) serial number is cleaned up;
        any other id is ignored. */
    method Detached(id: string, connected: bool) returns (r: Result<()>)
      requires Valid()
      modifies this`displayHandlers, this`dimmers, this`decks, this`deckIds, this`brightnessCalls,
               if id in deckIds && deckIds[id] in dimmers then {dimmers[deckIds[id]]} else {}
      ensures Valid()
      ensures !(id in old(deckIds) && old(deckIds)[id] != "") ==>
                r.Ok? && displayHandlers == old(displayHandlers) && dimmers == old(dimmers) &&
                decks == old(decks) && deckIds == old(deckIds) && brightnessCalls == old(brightnessCalls)
      ensures id in old(deckIds) && old(deckIds)[id] != "" ==> CleanedUp(old(deckIds)[id], id, r)
    {
      if id !in deckIds || deckIds[id] == "" {
        return Ok(());
      }
      r := Cleanup(id, deckIds[id], connected);
    }

    /** The registry after `cleanup(id, serial)` ran to the end. */
    ghost predicate CleanedUp(serial: string, id: string, r: Result<()>)
      reads this
    {
      r.Ok? ==> serial !in displayHandlers && serial !in dimmers && serial !in decks && id !in deckIds
    }

    /** `cleanup`: the display handler is stopped and dropped, the dimmer is
        stopped and dropped, a connected device is set to brightness 50 (its
        reset and close, and any transport error, are not modelled), and the
        device and its id are dropped. A missing entry is a KeyError that
        leaves the entries dropped so far dropped. */
    method Cleanup(id: string, serial: string, connected: bool) returns (r: Result<()>)
      requires Valid()
      modifies this`displayHandlers, this`dimmers, this`decks, this`deckIds, this`brightnessCalls,
               if serial in dimmers then {dimmers[serial]} else {}
      ensures Valid()
      ensures r.Ok? <==> serial in old(displayHandlers) && serial in old(dimmers) && serial in old(decks) && id in old(deckIds)
      ensures displayHandlers == old(displayHandlers) - {serial}
      ensures dimmers == if serial in old(displayHandlers) then old(dimmers) - {serial} else old(dimmers)
      ensures serial in old(displayHandlers) && serial in old(dimmers) ==>
                old(dimmers)[serial].State() == StopStep(old(dimmers[serial].State())).next &&
                old(dimmers)[serial].calls == old(dimmers[serial].calls) + [old(dimmers[serial].brightness)]
      ensures var reached := serial in old(displayHandlers) && serial in old(dimmers);
              decks == (if reached then old(decks) - {serial} else old(decks)) &&
              brightnessCalls == old(brightnessCalls) + (if reached && serial in old(decks) && connected then [(serial, 50)] else []) &&
              deckIds == (if reached && serial in old(decks) then old(deckIds) - {id} else old(deckIds))
    {
      if serial !in displayHandlers {
        return Err(KeyError(serial));
      }
      displayHandlers := displayHandlers - {serial};
      if serial !in dimmers {
        return Err(KeyError(serial));
      }
      var dimmer := dimmers[serial];
      dimmer.Stop();
      dimmers := dimmers - {serial};
      if serial !in decks {
        return Err(KeyError(serial));
      }
      if connected {
        brightnessCalls := brightnessCalls + [(serial, 50)];
      }
      decks := decks - {serial};
      if id !in deckIds {
        return Err(KeyError(id));
      }
      deckIds := deckIds - {id};
      return Ok(());
    }

    /** `attached`: the device is registered under its serial number, its
        records are created, its filters are pushed to its display handler,
        and a dimmer with the deck's stored settings is created and reset.
        `order` is the order `update_streamdeck_filters` visits the records
        in. */
    method Attached(id: string, device: D, serial: string, keyCount: int, order: seq<(int, int)>) returns (r: Result<()>)
      requires Valid() && Unique(order)
      requires forall p, q :: (Present(state, serial, p, q) || (0 <= p < 10 && 0 <= q < keyCount)) <==> (p, q) in order
      modifies this`state, this`decks, this`deckIds, this`displayHandlers, this`dimmers
      ensures Valid()
      ensures deckIds == old(deckIds)[id := serial] && decks == old(decks)[serial := device]
      ensures Initialized(old(state), state, serial, keyCount)
      ensures forall p, q :: 0 <= p < 10 && 0 <= q < keyCount ==> Present(state, serial, p, q)
      ensures r.Err? <==> serial in state &&
                          exists p, q :: Present(state, serial, p, q) && ButtonFilters(At(state, serial, p, q), defaultFont).Err?
      ensures serial !in state ==> displayHandlers == old(displayHandlers)
      ensures serial in state ==>
                serial in displayHandlers && displayHandlers[serial].page == GetPage(serial) &&
                (forall s :: s != serial ==> (s in displayHandlers <==> s in old(displayHandlers))) &&
                (forall s :: s != serial && s in old(displayHandlers) ==> displayHandlers[s] == old(displayHandlers)[s])
      ensures serial in state && r.Ok? ==>
                displayHandlers[serial].started &&
                forall p, q :: Present(state, serial, p, q) ==>
                  (p, q) in displayHandlers[serial].filters &&
                  Ok(displayHandlers[serial].filters[(p, q)]) == ButtonFilters(At(state, serial, p, q), defaultFont)
      ensures r.Ok? ==> serial in dimmers && fresh(dimmers[serial])
      ensures r.Ok? ==>
                dimmers[serial].State() == ResetStep(Initial(GetDisplayTimeout(serial), GetBrightness(serial), GetBrightnessDimmed(serial))).next
      ensures r.Ok? ==> forall s :: s != serial ==> (s in dimmers <==> s in old(dimmers))
      ensures r.Ok? ==> forall s :: s != serial && s in old(dimmers) ==> dimmers[s] == old(dimmers)[s]
      ensures r.Err? ==> dimmers == old(dimmers)
    {
      deckIds := deckIds[id := serial];
      decks := decks[serial := device];
      var before := state;
      InitializeDeck(serial, keyCount);
      InitializedRecords(before, state, serial, keyCount, order);
      r := UpdateStreamdeckFilters(serial, order);
      if r.Err? {
        return;
      }
      AddDimmer(serial);
    }

    /** The end of `attached`: a dimmer with the deck's stored settings is
        registered under its serial number and reset. */
    method AddDimmer(serial: string)
      requires Valid()
      modifies this`dimmers
      ensures Valid()
      ensures serial in dimmers && fresh(dimmers[serial])
      ensures dimmers[serial].State() == ResetStep(Initial(GetDisplayTimeout(serial), GetBrightness(serial), GetBrightnessDimmed(serial))).next
      ensures forall s :: s != serial ==> (s in dimmers <==> s in old(dimmers))
      ensures forall s :: s != serial && s in old(dimmers) ==> dimmers[s] == old(dimmers)[s]
    {
      var dimmer := new Dimmer(GetDisplayTimeout(serial), GetBrightness(serial), GetBrightnessDimmed(serial));
      assert forall s :: s in dimmers ==> dimmers[s] != dimmer;
      dimmers := dimmers[serial := dimmer];
      var _ := dimmer.Reset();
    }
  }
}
