# streamdeck-linux-gui: a verified model of its sequential cores

This project models the parts of streamdeck-linux-gui that decide what happens,
as opposed to the parts that draw, talk to devices or wait. Both editions of the
application are covered: `streamdeck_ui` and the Home Assistant edition
`streamdeck_ui_hass`. The model proves that these parts keep the promises the code makes.

- **Dimmer** (`Dimmers`). One deck's dimmer is a state machine over three
  flags: stopped, dimmed and timer armed. `reset`, `dim(toggle)` and `stop`
  drive it. The timer is a flag, and its expiry is the explicit event
  `Fire`. Every brightness passed to the callback is recorded.
- **Filter pipeline** (`Pipelines`). `Pipeline.execute` runs an ordered list
  of (filter, cached image) slots. It threads the input-changed flag through
  them, carries cached images forward, folds a pipeline hash and fills an
  insert-only output cache. Filters, images and Python's `hash` are abstract.
- **Display grid** (`DisplayGrids`). The page -> button -> pipeline table
  has first-write-wins insertion and a current page. The model covers one
  iteration of the render loop: the force-update decision and the frames it
  pushes.
- **Configuration store** (`Configs`, `HassApi`, `LegacyApi`). The nested
  deck/page/button records are created on demand. Setters write only on
  change, two buttons can be swapped, and the brightness is clamped. A
  button's settings become a list of filters. The server object of
  `streamdeck_ui_hass/api.py` (`HassApi.StreamDeckServer`) adds the dimmers
  and `toggle_dimmers`. The older module-level API of `streamdeck_ui/api.py`
  (`LegacyApi.Api`) adds the loading of the configuration file. Both keep a
  device registry that is filled on attach and emptied on cleanup.
- **Device monitor** (`Monitors`). One pass of the monitor loop reconciles
  the tracked devices with the enumerated ones and fires the attach and
  detach callbacks. `start` and `stop` are modelled too.
- **Home Assistant helpers** (`HomeAssistants`). This is the non-network
  part of the client: the button key encoding, URL handling, the message-id
  counter, the icon decisions and which buttons track which entity. A
  message sent on the websocket is a value appended to a list.
- **GUI decisions** (`Gui`). These are the choices the Qt front end makes
  itself:
  - special-key substitution and key-specification parsing;
  - what a key press triggers;
  - the vertical-alignment cycle;
  - the page-switch offset;
  - the CPU cap;
  - the display-timeout list of the settings dialog.
- `Strings` holds the Python `str` operations the code relies on. `Wrappers`
  holds `Option` and `Result`.

Stateful source objects are classes. Their methods are specified by pure step
functions and datatypes, and the lemmas are proved about those functions.
Exceptions the source raises (KeyError, IndexError, ValueError,
AttributeError, TypeError) are `Result` errors. Device, pipeline and filter
objects are type parameters. Callbacks into code outside the core are
function parameters, or are recorded in sequences such as `calls`,
`brightnessCalls`, `events` and `sent`. Saving the state to its file is the
counter `saves`. Every device or library call this model does not cover is listed under "## Left out".

Where the description of the system and the code disagree, the model follows
the code:

- DisplayGrids.DisplayGrid.RunTick: `execute` and `last_result` are fixed functions of the pipeline for one tick, so the model assumes each button holds its own pipeline. A pipeline object shared by two buttons runs once per button in the source (display_grid.py:55-58), and its second run sees the first run's cache.
- `Dimmer.reset` reports a wake only when `brightness_dimmed < 20`, not
  for every wake from the dimmed state.
- `toggle_dimmers` reads `dimmer.dimmed`, while `Dimmer` keeps the flag
  name-mangled as `__dimmed`. As written this is an AttributeError
  (`ToggleDimmersAsWritten`). `ToggleDimmers` reads the flag, as the code
  evidently intends.
- The guard of `StreamDeckMonitor.start` negates a bound method. That is
  always false, so `start` never returns early and a second call starts a
  second thread (`Start`). `StartIntended` does what the docstring says:
  nothing while a thread runs. Calling `is_set()` in the guard would not be
  enough, because the quit event starts clear and `start` would then never
  start a thread.
- `StreamDeckMonitor.stop` assigns `pipelmonitor_thread` instead of
  `monitor_thread`, so the thread reference stays set.
- The Home Assistant edition always builds its text filter with vertical
  alignment "middle". The stored alignment is read but not used.
- `DEFAULT_FONT` and `CONFIG_FILE_VERSION` come from a configuration module
  that is not part of this model. They are parameters.

## Model

| member | source | states |
|---|---|---|
| Dimmers.Initial | streamdeck_ui/dimmer.py:14-20 | A new dimmer is not stopped, not dimmed, has no timer armed, and satisfies the invariant that a stopped or dimmed dimmer has no pending timer |
| Dimmers.ResetStep | streamdeck_ui/dimmer.py:36-56 | After `reset` the dimmer is neither stopped nor dimmed, a timer is armed iff the timeout is non-zero, the callback gets `brightness` exactly when it was dimmed, and it reports a wake iff it was dimmed and `brightness_dimmed < 20`; settings are unchanged and the invariant holds |
| Dimmers.DimStep | streamdeck_ui/dimmer.py:59-75 | `dim` does nothing while stopped; `dim(True)` while dimmed is exactly `reset`; otherwise with a timer armed it disarms it, dims and calls back with `brightness_dimmed`, and with no timer nothing changes; the invariant is preserved |
| Dimmers.StopStep | streamdeck_ui/dimmer.py:22-34 | `stop` disarms the timer, calls back with `brightness` once, becomes stopped and leaves the dimmed flag as it was (a KeyError from the callback changes nothing) |
| Dimmers.NoTimeoutNeverDims | streamdeck_ui/dimmer.py:45-47 | With timeout 0, a dimmer that is awake and has no timer never becomes dimmed and never arms a timer, under any sequence of reset, dim, stop and timer events |
| Dimmers.RunKeepsInv | streamdeck_ui/dimmer.py:22-75 | Every sequence of events keeps the invariant "stopped or dimmed implies no timer pending" |
| Dimmers.ResetTwice | streamdeck_ui/dimmer.py:36-56 | A second `reset` in a row changes no state, makes no callback and reports no wake |
| Dimmers.AutoDimThenReset | streamdeck_ui/dimmer.py:45-54 | With timeout 10, brightness 100 and dimmed brightness 20, the timer dims to 20; a reset restores 100, re-arms the timer and reports no wake, because 20 is not below 20 |
| Dimmers.Dimmer.constructor | streamdeck_ui/dimmer.py:6-20 | The object starts in the initial state with no callback made |
| Dimmers.Dimmer.Stop | streamdeck_ui/dimmer.py:22-34 | The object's new state and appended callbacks are those of `StopStep` |
| Dimmers.Dimmer.Reset | streamdeck_ui/dimmer.py:36-56 | The object's new state, appended callbacks and return value are those of `ResetStep` |
| Dimmers.Dimmer.Dim | streamdeck_ui/dimmer.py:59-75 | The object's new state and appended callbacks are those of `DimStep` |
| Dimmers.Dimmer.Fire | streamdeck_ui/dimmer.py:45-47 | The timer expiring calls `dim()`: the new state and callbacks are those of `DimStep` without toggle |
| Pipelines.StepAt | streamdeck_ui/display/pipeline.py:32-52 | One iteration of the `execute` loop never adds or removes a slot |
| Pipelines.Prefix | streamdeck_ui/display/pipeline.py:28-52 | The loop state after any number of filters still has one slot per filter |
| Pipelines.SlotsStep | streamdeck_ui/display/pipeline.py:40-48 | One iteration replaces only its own slot's cached image, and only when its filter answered with an image |
| Pipelines.SlotsAfter | streamdeck_ui/display/pipeline.py:40-48 | After a run a filter's slot holds the image it answered with, or its previous cached image when it answered "no change"; slots not reached are untouched and filters never change |
| Pipelines.ModifiedStep | streamdeck_ui/display/pipeline.py:40-48 | One iteration sets the modified flag when its filter answered with an image and never clears it |
| Pipelines.AnsweredWitness | streamdeck_ui/display/pipeline.py:32-48 | If some earlier filter answered, one with an index below the bound can be named |
| Pipelines.AnsweredReaches | streamdeck_ui/display/pipeline.py:32-48 | A filter that answered counts for every longer prefix of the run |
| Pipelines.ModifiedMeansAnswered | streamdeck_ui/display/pipeline.py:29-48 | The modified flag after `i` filters equals "one of them answered" |
| Pipelines.ModifiedMeansEarlierChange | streamdeck_ui/display/pipeline.py:29-48 | The modified flag after `i` filters is set iff one of the first `i` filters answered with an image |
| Pipelines.FlagMeansEarlierChange | streamdeck_ui/display/pipeline.py:34-36 | The input-changed flag passed to filter `i` is true iff the run is a first run or an earlier filter of this run answered with an image |
| Pipelines.CacheStep | streamdeck_ui/display/pipeline.py:38-52 | One iteration folds the filter's hash into the pipeline hash and inserts the running image under it only if that hash had no entry |
| Pipelines.CacheKeepsEntries | streamdeck_ui/display/pipeline.py:50-52 | The output cache is insert-only: an entry present before the run is still there with the same image |
| Pipelines.CacheHasFolded | streamdeck_ui/display/pipeline.py:50-52 | Every pipeline hash folded during the run has an entry in the output cache |
| Pipelines.CacheOnlyFolded | streamdeck_ui/display/pipeline.py:50-52 | Every key of the output cache was there before the run or is one of the run's folded hashes |
| Pipelines.ImageIsLastCached | streamdeck_ui/display/pipeline.py:40-48 | After at least one filter the running image is what the last filter reached now caches |
| Pipelines.NoChangeGivesNone | streamdeck_ui/display/pipeline.py:54-59 | A run that is not a first run and where no filter answered with an image returns `None` in the image position |
| Pipelines.FirstRunGivesImage | streamdeck_ui/display/pipeline.py:54-59 | A first run returns the final slot's cached image, which is non-null when the last filter answered or already had a cached image |
| Pipelines.ExecuteImageIsLastResult | streamdeck_ui/display/pipeline.py:54-65 | An image `execute` returns is exactly what `last_result` answers afterwards |
| Pipelines.Pipeline.constructor | streamdeck_ui/display/pipeline.py:12-16 | A new pipeline has exactly one slot (the empty filter, nothing cached), `first_run` set and an empty output cache |
| Pipelines.Pipeline.Add | streamdeck_ui/display/pipeline.py:18-20 | `add` appends one uncached slot, sets `first_run` again and leaves the output cache alone |
| Pipelines.Pipeline.Execute | streamdeck_ui/display/pipeline.py:22-59 | The slots, output cache and returned (image, hash) are those of the specification run over all filters, and `first_run` ends cleared |
| Pipelines.Pipeline.LastResult | streamdeck_ui/display/pipeline.py:61-65 | `last_result` is the final slot's cached image; `Add` makes it `None` (an image that `Execute` returns is this one: `ExecuteImageIsLastResult`) |
| Pipelines.Pipeline.RunFilter | streamdeck_ui/display/pipeline.py:32-52 | One loop iteration on the object's fields matches the specification step |
| DisplayGrids.PutFirst | streamdeck_ui/display/display_grid.py:30-33 | `set_pipeline`'s double `setdefault`: the (page, button) entry is the existing pipeline if there is one, else the new one; every other page and button is unchanged |
| DisplayGrids.Lookup | streamdeck_ui/display/display_grid.py:35-36 | `get_pipeline` succeeds iff the page and button exist and then returns the stored pipeline, else it is a KeyError |
| DisplayGrids.PutFirstTwice | streamdeck_ui/display/display_grid.py:30-33 | A second `set_pipeline` for the same (page, button) changes nothing |
| DisplayGrids.LookupAfterPut | streamdeck_ui/display/display_grid.py:30-36 | `get_pipeline` returns what the first `set_pipeline` for that (page, button) stored |
| DisplayGrids.FramesFromPage | streamdeck_ui/display/display_grid.py:55-88 | A tick pushes frames only to buttons of the current page, and every button whose pipeline produced an image gets exactly that image |
| DisplayGrids.NoChangeNoFrame | streamdeck_ui/display/display_grid.py:50-65 | Without a page switch a "no change" button gets no frame; on a page switch it gets its `last_result()` when that is non-null, and nothing otherwise |
| DisplayGrids.DisplayGrid.constructor | streamdeck_ui/display/display_grid.py:17-28 | The table is empty, `current_page` is -1, not running, no thread |
| DisplayGrids.DisplayGrid.SetPipeline | streamdeck_ui/display/display_grid.py:30-33 | The table becomes its first-write-wins update |
| DisplayGrids.DisplayGrid.GetPipeline | streamdeck_ui/display/display_grid.py:35-37 | A pipeline is found iff the page and the button are in the table, and it is the stored one; after `SetPipeline` it is found, and it is the earlier one if there was one |
| DisplayGrids.DisplayGrid.SetPage | streamdeck_ui/display/display_grid.py:109-116 | `set_page` sets `current_page` and nothing else |
| DisplayGrids.DisplayGrid.Start | streamdeck_ui/display/display_grid.py:118-129 | After `start` the grid is running with a thread |
| DisplayGrids.DisplayGrid.Stop | streamdeck_ui/display/display_grid.py:131-138 | `stop` clears `running` only if a thread was started, and under the object invariant `running` ends false |
| DisplayGrids.DisplayGrid.RunTick | streamdeck_ui/display/display_grid.py:46-88 | A missing current page is a KeyError; otherwise force-update is set iff the current page's table differs from the one seen last (or none was seen), and the pushed frames are exactly those of `IsFrames`: the executed image, substituted by `last_result()` under force, for every button whose image is non-null |
| DisplayGrids.DisplayGrid.RunTickAsWritten | streamdeck_ui/display/display_grid.py:58-65 | As written, `image` is the whole (image, hash) pair, so every button of the page enters the push branch with its pair |
| DisplayGrids.AsWrittenPushesUnchanged | streamdeck_ui/display/display_grid.py:58-65 | Outside a page switch, a button whose pipeline reports no change gets no frame in the intended tick but is pushed a pair with a `None` image as written |
| Configs.Get | streamdeck_ui_hass/api.py:652-662 | `button.get(key)` is defined iff the key is stored, and then is the stored value |
| Configs.ButtonState | streamdeck_ui_hass/api.py:291-294 | `_button_state` returns the existing record unchanged, or creates an empty one; afterwards the record exists, is the one returned, and no other record, page or deck setting changed |
| Configs.Created | streamdeck_ui/api.py:219-222 | The chained `setdefault`s create one empty record at (deck, page, button) and touch nothing else |
| Configs.ButtonStateTwice | streamdeck_ui_hass/api.py:291-294 | Fetching a record a second time returns the same record and changes nothing |
| Configs.Put | streamdeck_ui_hass/api.py:309-315 | Assigning into an existing record replaces just that record |
| Configs.Default | streamdeck_ui_hass/api.py:317-319 | Getters default to 0 for `brightness_change` and `switch_page` and to "" for every other field |
| Configs.KeysDistinct | streamdeck_ui_hass/api.py:309-520 | Different fields are stored under different keys, so setting one never affects another |
| Configs.SetField | streamdeck_ui_hass/api.py:309-315 | A setter leaves the field reading as the new value, reports a change (and so a save) iff the getter read something different, keeps every other key of the record, and leaves every other record alone |
| Configs.SetFieldTwice | streamdeck_ui_hass/api.py:492-520 | Setting the same value twice: the second call changes nothing and saves nothing |
| Configs.PutSetting | streamdeck_ui_hass/api.py:586-590 | `setdefault(deck, {})[key] = v` stores the value, keeps every other setting and the deck's buttons, and leaves every other deck alone |
| Configs.GetSetting | streamdeck_ui_hass/api.py:529-531 | `state.get(deck, {}).get(key, default)` is the stored setting when the deck has it, and the default otherwise |
| Configs.GetOfPutSetting | streamdeck_ui_hass/api.py:586-590 | Reading after storing gives the stored value for that deck and key, and every other setting reads as before |
| Configs.Swap | streamdeck_ui_hass/api.py:296-301 | Swapping succeeds iff both records exist (else KeyError); the two records trade places, every other record and deck is unchanged and no record appears or disappears |
| Configs.SwapTwice | streamdeck_ui_hass/api.py:296-301 | Swapping the same two buttons twice restores the original state |
| Configs.Clamp | streamdeck_ui_hass/api.py:577 | `max(min(x, 100), 0)` is always in [0, 100] and is `x` when `x` already is |
| Configs.Replace | streamdeck_ui_hass/api.py:678 | `display_handler.replace` stores the new filters for that (page, button) only |
| Configs.FontSize | streamdeck_ui_hass/api.py:664-674 | The font size is 14 with an icon or a text of 6 or more characters, 40 for fewer than 4, 33 for exactly 4 and 26 for exactly 5 |
| Configs.FontSizeShrinks | streamdeck_ui_hass/api.py:664-674 | A longer text never gets a larger font |
| Configs.Assemble | streamdeck_ui_hass/api.py:650-676 | The filter list holds an image filter iff one is given, a pulse filter iff asked, a text filter iff one is given, each kind at most once and in the order image, pulse, text |
| Configs.ButtonFilters | streamdeck_ui_hass/api.py:649-678 | The Home Assistant filters: image for a truthy icon, pulse for a truthy pulse, text for a truthy text, in that order; the text filter carries the text, the font (default `DEFAULT_FONT`), "middle" and the font size of the table; a truthy non-string text without an icon is the TypeError of `len` |
| Configs.ShortKinds | streamdeck_ui_hass/api.py:649-678 | For a filter list of at most three entries (as this builder returns), which kinds occur and whether they are in order, written out position by position |
| Configs.LegacyButtonFilters | streamdeck_ui/api.py:450-468 | The older filters: the same three kinds in the same order, with the text filter built from text and font only |
| Configs.NoSettingsNoFilters | streamdeck_ui/api.py:450-468 | A button with no truthy icon, pulse or text gets the empty filter list in both editions |
| Configs.InitializedRecords | streamdeck_ui/api.py:134-167 | After initialisation the deck's records are exactly the old ones plus the created ones, which is the set `update_streamdeck_filters` visits |
| Configs.InitializeState | streamdeck_ui/api.py:156-167 | `initialize_state` makes a record exist for every page 0..9 and every button below the key count, keeps every existing record as it was, and creates nothing else |
| Configs.InitializePage | streamdeck_ui/api.py:166-167 | The inner loop creates every button record of one page and keeps the records already present |
| Configs.StepKeepsInitialized | streamdeck_ui/api.py:166-167 | One `_button_state` call of the loop keeps the initialisation invariant, creates its record and keeps every record already there |
| LegacyApi.ConvertWith | streamdeck_ui/api.py:100-103 | The `int(k)` dict comprehension succeeds iff every key parses and every value converts |
| LegacyApi.Same | streamdeck_ui/api.py:101 | The inner comprehension keeps each button record as it is |
| LegacyApi.ConvertWithError | streamdeck_ui/api.py:100-103 | The error raised is the one of the first entry that does not convert |
| LegacyApi.ConvertWithKeys | streamdeck_ui/api.py:100-103 | The keys of the converted map are exactly the numbers of the entries' keys |
| LegacyApi.ConvertWithValue | streamdeck_ui/api.py:100-103 | A key's value is the converted value of the last entry with that number |
| LegacyApi.LoadDecks | streamdeck_ui/api.py:98-104 | Loading the decks succeeds iff every deck's page and button keys convert |
| LegacyApi.LoadDecksKeys | streamdeck_ui/api.py:98-104 | A file that loads holds exactly the deck ids it names |
| LegacyApi.LoadDecksValue | streamdeck_ui/api.py:98-104 | Each deck is its last entry's converted buttons with its settings |
| LegacyApi.LoadDecksStops | streamdeck_ui/api.py:98-104 | The first deck whose keys do not convert ends the loading with its error, keeping the decks stored before it |
| LegacyApi.LoadDecksLast | streamdeck_ui/api.py:98-104 | After an earlier deck failed, a further deck changes nothing; a deck whose keys do not convert ends the loading with its own error, keeping the decks before it |
| LegacyApi.OpenConfig | streamdeck_ui/api.py:85-104 | A version other than `CONFIG_FILE_VERSION` (absent counts as 0) is a ValueError that keeps the old state; otherwise the state restarts empty, a missing "state" is a KeyError, and the decks are loaded |
| LegacyApi.IntToStringInjective | streamdeck_ui/api.py:114-128 | `str(n)` is one-to-one, so distinct page and button numbers are saved under distinct keys |
| LegacyApi.ConvertWritten | streamdeck_ui/api.py:100-103 | Loading what saving wrote for distinct integer keys gives back exactly those keys, each with its converted value |
| LegacyApi.Written | streamdeck_ui/api.py:114-122 | Saving writes one entry per key, in order: `str(key)` and the value |
| LegacyApi.Api.constructor | streamdeck_ui/api.py:21-29 | The module globals start empty, with nothing saved and no brightness sent |
| LegacyApi.Api.Open | streamdeck_ui/api.py:85-104 | The new state and result are those of `OpenConfig` |
| LegacyApi.Api.GetButtonState | streamdeck_ui/api.py:219-222 | Returns and stores what `ButtonState` gives |
| LegacyApi.Api.GetButtonField | streamdeck_ui/api.py:251-253 | A getter creates the record if missing and reads the field with its default |
| LegacyApi.Api.UpdateButtonFilters | streamdeck_ui/api.py:438-468 | A deck without a display handler is a KeyError that changes nothing; otherwise the record is created if missing and its filters replace the button's in that handler only |
| LegacyApi.Api.SetButtonField | streamdeck_ui/api.py:241-350 | A different value is written and saved once; the text and icon setters then refresh the button's filters, a KeyError without a display handler; unchanged values save and refresh nothing |
| LegacyApi.Api.SwapButtons | streamdeck_ui/api.py:225-238 | A missing record is a KeyError that changes nothing; otherwise the records are swapped, saved once, and both buttons get filters from their new records (a KeyError without a display handler) |
| LegacyApi.Api.SetDeckSetting | streamdeck_ui/api.py:75-78 | `set_display_timeout` and `set_brightness_dimmed` store the setting and save, changed or not, and the getter then reads the new value |
| LegacyApi.Api.SetBrightness | streamdeck_ui/api.py:353-358 | The same brightness changes nothing; a different one for an unattached deck is a KeyError before any change; otherwise it goes to the device, into the state and is saved |
| LegacyApi.Api.ChangeBrightness | streamdeck_ui/api.py:376-380 | The target is the stored brightness plus `amount`, clamped to [0, 100]. When it differs from the stored value and the deck is attached, it is stored, saved once and sent to the device once; when it equals the stored value nothing changes; when it differs and the deck is not attached, a KeyError leaves state, saves and device calls as they were |
| LegacyApi.Api.GetDisplayTimeout | streamdeck_ui/api.py:70-72 | The deck's stored "display_timeout" setting, or 0 when the deck or the setting is missing |
| LegacyApi.Api.GetBrightness | streamdeck_ui/api.py:361-363 | The deck's stored "brightness" setting, or 100 when the deck or the setting is missing |
| LegacyApi.Api.GetBrightnessDimmed | streamdeck_ui/api.py:366-369 | The deck's stored "brightness_dimmed" setting, or 0 when the deck or the setting is missing |
| LegacyApi.Api.GetPage | streamdeck_ui/api.py:383-385 | The deck's stored "page" setting, or 0 when the deck or the setting is missing |
| LegacyApi.Api.SetPage | streamdeck_ui/api.py:388-399 | A different page is stored and saved; the page is then current in the state, and the display handler gets it, a KeyError when there is none |
| LegacyApi.Api.InitializeDeck | streamdeck_ui/api.py:156-167 | The state becomes the one `initialize_state` guarantees |
| LegacyApi.Api.UpdateStreamdeckFilters | streamdeck_ui/api.py:402-435 | For an attached deck with settings, its handler (new if none) ends at the stored page, started, with each record's filters; other handlers are untouched; otherwise nothing changes |
| LegacyApi.Api.Attached | streamdeck_ui/api.py:134-153 | The id maps to the serial and the serial to the device; the deck's records are initialised. If the serial still has no state (no keys) the display handlers are unchanged; otherwise its handler is set to the stored page and started with every record's filters. Every other handler is unchanged |
| LegacyApi.Api.Detatched | streamdeck_ui/api.py:170-174 | An id with no (or an empty) serial number changes nothing; otherwise the deck is cleaned up |
| LegacyApi.Api.Cleanup | streamdeck_ui/api.py:177-193 | The handler is dropped; a connected device is set to brightness 50; the device and id are dropped; a missing entry is a KeyError that keeps what was already dropped |
| HassApi.ToggleOutcome | streamdeck_ui_hass/api.py:104-118 | With some dimmer awake, every running dimmer with a timer armed ends dimmed; with all dimmed, every running one wakes and re-arms iff its timeout is non-zero; stopped ones are unchanged |
| HassApi.Refreshed | streamdeck_ui_hass/api.py:644-678 | Without a display handler nothing happens; otherwise the record's filters replace the button's in that handler only, or building them fails and nothing changes |
| HassApi.StreamDeckServer.constructor | streamdeck_ui_hass/api.py:41-78 | Everything starts empty, no button is being clicked, nothing saved, no brightness sent |
| HassApi.StreamDeckServer.GetButtonState | streamdeck_ui_hass/api.py:291-294 | Returns and stores what `ButtonState` gives |
| HassApi.StreamDeckServer.GetButtonField | streamdeck_ui_hass/api.py:317-319 | A getter creates the record if missing and reads the field with its default |
| HassApi.StreamDeckServer.UpdateButtonFilters | streamdeck_ui_hass/api.py:632-678 | Without a handler nothing changes (not even the record is created); otherwise the record is created if missing and the handlers become `Refreshed` |
| HassApi.StreamDeckServer.SetButtonField | streamdeck_ui_hass/api.py:309-520 | While a button is clicked the Home Assistant setters change nothing; otherwise a different value is written and saved once, and the text, icon, alignment, domain and entity setters refresh the button's filters |
| HassApi.StreamDeckServer.WriteField | streamdeck_ui_hass/api.py:309-315 | The shared setter body: write on change, save once, and refresh when asked |
| HassApi.StreamDeckServer.SwapButtons | streamdeck_ui_hass/api.py:296-307 | A missing record is a KeyError that changes nothing; otherwise the records are swapped, saved once, and both buttons are refreshed in turn, the first failure ending the call |
| HassApi.StreamDeckServer.SetBrightness | streamdeck_ui_hass/api.py:522-527 | The same brightness changes nothing; a different one for an unattached deck is a KeyError before any change; otherwise it goes to the device, into the state and is saved |
| HassApi.StreamDeckServer.ChangeBrightness | streamdeck_ui_hass/api.py:575-580 | The target is the stored brightness plus `amount`, clamped to [0, 100]. It is stored, saved once and sent to the device once exactly when it differs from the stored value and the device is attached; otherwise state, saves and device calls are unchanged. The call succeeds iff that store succeeds and the deck has a dimmer, which then takes the value and is reset; on an error the dimmer is untouched |
| HassApi.StreamDeckServer.GetDisplayTimeout | streamdeck_ui_hass/api.py:143-145 | The deck's stored "display_timeout" setting, or 0 when the deck or the setting is missing |
| HassApi.StreamDeckServer.GetBrightness | streamdeck_ui_hass/api.py:529-531 | The deck's stored "brightness" setting, or 100 when the deck or the setting is missing |
| HassApi.StreamDeckServer.GetBrightnessDimmed | streamdeck_ui_hass/api.py:533-536 | The deck's stored "brightness_dimmed" setting, or 0 when the deck or the setting is missing |
| HassApi.StreamDeckServer.GetPage | streamdeck_ui_hass/api.py:582-584 | The deck's stored "page" setting, or 0 when the deck or the setting is missing |
| HassApi.StreamDeckServer.ResetDimmer | streamdeck_ui_hass/api.py:91-102 | The dimmer takes the stored brightness settings and is reset, and the answer is whether that woke it; a deck without a dimmer is a KeyError |
| HassApi.StreamDeckServer.SomeAwake | streamdeck_ui_hass/api.py:108-112 | The first loop, reading each dimmer's flag as intended, finds a dimmer that is not dimmed iff not all are dimmed |
| HassApi.StreamDeckServer.DimEach | streamdeck_ui_hass/api.py:114-118 | The second loop applies the same dim step to every dimmer |
| HassApi.StreamDeckServer.ToggleDimmers | streamdeck_ui_hass/api.py:104-118 | As intended: every dimmer gets `dim()` when some dimmer was awake and `dim(True)` when all were dimmed |
| HassApi.StreamDeckServer.ToggleDimmersAsWritten | streamdeck_ui_hass/api.py:104-118 | As written: with at least one dimmer, reading `dimmer.dimmed` raises AttributeError and no dimmer changes; with none, nothing happens |
| HassApi.StreamDeckServer.SetPage | streamdeck_ui_hass/api.py:586-597 | A different page is stored and saved; the display handler gets it, a KeyError when there is none |
| HassApi.StreamDeckServer.InitializeDeck | streamdeck_ui_hass/api.py:232-243 | The state becomes the one `initialize_state` guarantees |
| HassApi.StreamDeckServer.UpdateStreamdeckFilters | streamdeck_ui_hass/api.py:599-630 | For an attached deck with settings, its handler (new if none) ends at the stored page; on success it is started with every record's filters; a failure names a record whose filters cannot be built; other handlers are untouched |
| HassApi.StreamDeckServer.Detached | streamdeck_ui_hass/api.py:245-249 | An id with no (or an empty) serial number changes nothing; otherwise the deck is cleaned up |
| HassApi.StreamDeckServer.Cleanup | streamdeck_ui_hass/api.py:251-270 | The handler is dropped, the dimmer is stopped (calling back with its brightness) and dropped, a connected device is set to brightness 50, and the device and id are dropped; a missing entry is a KeyError that keeps what was already dropped |
| HassApi.StreamDeckServer.Attached | streamdeck_ui_hass/api.py:207-230 | The id maps to the serial and the serial to the device; the records are initialised. If the serial still has no state after that (no keys), the display handlers are unchanged. Otherwise its handler is set to the stored page, every other handler is unchanged, and the call fails iff some record's filters cannot be built (a TypeError); on success the handler is started with every record's filters, and a fresh dimmer with the stored timeout and brightness settings is registered and reset, other dimmers untouched; on failure no dimmer is added |
| HassApi.StreamDeckServer.AddDimmer | streamdeck_ui_hass/api.py:220-226 | A fresh dimmer built from the stored settings and reset is registered under the serial, other dimmers untouched |
| Monitors.Without | streamdeck_ui/stream_deck_monitor.py:81-85 | Deleting an id from the key order keeps every other key and the keys' uniqueness |
| Monitors.Remove | streamdeck_ui/stream_deck_monitor.py:83-84 | `del streamdecks[id]` removes exactly that id and keeps every other device |
| Monitors.DetachAll | streamdeck_ui/stream_deck_monitor.py:81-85 | The detach loop keeps the tracked dictionary well formed |
| Monitors.AttachAllWf | streamdeck_ui/stream_deck_monitor.py:75-79 | The attach loop tracks old and enumerated ids, keeps the tracked devices, and fires attach exactly once for each enumerated id that was not tracked |
| Monitors.DetachAllFacts | streamdeck_ui/stream_deck_monitor.py:81-85 | The detach loop removes exactly the tracked ids absent from the enumeration and fires detach once for each |
| Monitors.DetachAllStep | streamdeck_ui/stream_deck_monitor.py:81-85 | Each further key of the snapshot is detached when absent and kept otherwise |
| Monitors.PassSplit | streamdeck_ui/stream_deck_monitor.py:74-85 | A pass is the attach loop followed by the detach loop over the keys after attaching, with their events in that order |
| Monitors.PassReconciles | streamdeck_ui/stream_deck_monitor.py:74-85 | After one pass the tracked ids equal the enumerated ids; attach fires exactly for new ids and detach exactly for vanished ids, each once |
| Monitors.StablePass | streamdeck_ui/stream_deck_monitor.py:74-85 | A pass over exactly the tracked devices fires nothing and changes no tracked id |
| Monitors.StreamDeckMonitor.constructor | streamdeck_ui/stream_deck_monitor.py:18-33 | Quit is clear, nothing is tracked, there is no thread and none was started |
| Monitors.StreamDeckMonitor.Start | streamdeck_ui/stream_deck_monitor.py:35-47 | As written: the guard is always false, so every call starts one more thread and clears quit, even while a thread runs |
| Monitors.StreamDeckMonitor.StartIntended | streamdeck_ui/stream_deck_monitor.py:35-38 | As the docstring promises: while a thread runs and quit is clear nothing happens; otherwise one thread is started and quit cleared |
| Monitors.StreamDeckMonitor.Stop | streamdeck_ui/stream_deck_monitor.py:49-66 | With quit set nothing happens; otherwise quit is set, and with no thread `join` on `None` is an AttributeError; else every tracked id is detached in order and the map is emptied |
| Monitors.StreamDeckMonitor.RunPass | streamdeck_ui/stream_deck_monitor.py:71-85 | One loop pass leaves the tracked map and the callback events of the specification pass |
| Monitors.StreamDeckMonitor.AttachNew | streamdeck_ui/stream_deck_monitor.py:75-79 | The attach loop on the object matches the specification loop |
| Monitors.StreamDeckMonitor.DetachAbsent | streamdeck_ui/stream_deck_monitor.py:81-85 | The detach loop on the object matches the specification loop |
| Monitors.StreamDeckMonitor.DetachIfAbsent | streamdeck_ui/stream_deck_monitor.py:82-85 | An absent id is deleted from the dictionary and announced; a present one changes nothing |
| Monitors.StartTwiceAsWritten | streamdeck_ui/stream_deck_monitor.py:35-47 | Two calls of `start` on a new monitor start two threads |
| Monitors.StartTwiceIntended | streamdeck_ui/stream_deck_monitor.py:35-38 | Two calls of the intended `start` on a new monitor start one thread |
| HomeAssistants.Encode | streamdeck_ui/homeassistant.py:603-604 | The key starts with the deck id and the separator |
| HomeAssistants.Decode | streamdeck_ui/homeassistant.py:607-609 | Fewer than two parts is an IndexError; a success returns the first part and the parsed second and third parts |
| HomeAssistants.DecodeEncode | streamdeck_ui/homeassistant.py:603-609 | Decoding the encoding gives back (deck, page, button) when the deck id holds no "-" and page and button are non-negative |
| HomeAssistants.EncodeNegativePage | streamdeck_ui/homeassistant.py:603-609 | With a negative page the minus sign is taken as a separator, so the page part is empty |
| HomeAssistants.DecodeEncodeNegativePage | streamdeck_ui/homeassistant.py:603-609 | So decoding the encoding of a negative page fails |
| HomeAssistants.SecondSegment | streamdeck_ui/homeassistant.py:68-70 | `url.split("//")[1]` is the text after the first "//" up to the next "//" or the end, and holds no "//" |
| HomeAssistants.UrlHost | streamdeck_ui/homeassistant.py:68-72 | `set_url` keeps the segment after the first "//" when there is one and the URL verbatim otherwise |
| HomeAssistants.UrlHostOfSchemeAndHost | streamdeck_ui/homeassistant.py:68-72 | "scheme//host" is reduced to the host |
| HomeAssistants.UrlHostPlain | streamdeck_ui/homeassistant.py:68-72 | `set_url("url")` stores "url" |
| HomeAssistants.ButtonIconCases | streamdeck_ui/homeassistant.py:599-600 | "on" and "off" states and media players are drawn as icons, and no other state of another domain is |
| HomeAssistants.IconName | streamdeck_ui/homeassistant.py:578-580 | A name without "mdi:" is kept |
| HomeAssistants.IconPath | streamdeck_ui/homeassistant.py:582-585 | The path is the table's non-empty entry for the name, else `MDI_DEFAULT_PATH`; never empty |
| HomeAssistants.GetIconSvg | streamdeck_ui/homeassistant.py:578-587 | The SVG carries the stripped name as title and its path |
| HomeAssistants.IconSvgIgnoresMdiPrefix | streamdeck_ui/homeassistant.py:578-587 | "mdi:name" gives the same SVG as "name" |
| HomeAssistants.IconSvgUnknownName | streamdeck_ui/homeassistant.py:578-587 | An unknown name gets the default path |
| HomeAssistants.MediaPlayerIconName | streamdeck_ui/homeassistant.py:273-292 | play_pause gives "pause" when playing and "play" otherwise, every other service its fixed icon; every answer is a well-formed MDI name |
| HomeAssistants.MediaPlayerServiceIcon | streamdeck_ui/homeassistant.py:280-292 | The fixed icon of each other service is a well-formed MDI name |
| HomeAssistants.IconTablesAgree | streamdeck_ui/homeassistant.py:273-292 | The corrected and the written tables agree on every service but "volume_down" |
| HomeAssistants.VolumeDownAsWritten | streamdeck_ui/homeassistant.py:284-285 | As written, "volume_down" yields "entity_id, volume-minus", which is no MDI name, so the button draws the default icon |
| HomeAssistants.DrawIcon | streamdeck_ui/homeassistant.py:267-309 | An empty id gives ""; a media player is drawn by the given icon name in `COLOR_ON`; any other entity gets its own icon, `COLOR_ON` iff the state is "on", and an unknown domain or entity is an AttributeError |
| HomeAssistants.GetIcon | streamdeck_ui/homeassistant.py:267-309 | As intended (the corrected table of the first Findings row): the cases of DrawIcon, a media player drawn by its service's corrected icon name |
| HomeAssistants.GetIconAsWritten | streamdeck_ui/homeassistant.py:267-309 | As written: a media player is drawn by the written table's name, "entity_id, volume-minus" for "volume_down" |
| HomeAssistants.GetIconAgrees | streamdeck_ui/homeassistant.py:273-294 | The written and the intended icon are equal except for a media player's "volume_down" button |
| HomeAssistants.GetIconVolumeDown | streamdeck_ui/homeassistant.py:284-294 | On that button the written code draws the default path titled "entity_id, volume-minus", the intended one the table's "volume-minus" icon |
| HomeAssistants.NewMessage | streamdeck_ui/homeassistant.py:468-470 | `create_message` raises the counter by one and the message carries the new id and the given type |
| HomeAssistants.MessageIdsIncrease | streamdeck_ui/homeassistant.py:468-470 | Successive messages carry strictly increasing ids |
| HomeAssistants.RemoveFirst | streamdeck_ui/homeassistant.py:537-538 | `list.remove` drops one element, and on a list without duplicates exactly that one |
| HomeAssistants.SetEntityKeepsInv | streamdeck_ui/homeassistant.py:479-559 | Storing an entity whose buttons are unique and which is subscribed iff it has buttons keeps the bookkeeping invariant |
| HomeAssistants.AddTrackedKeepsInv | streamdeck_ui/homeassistant.py:479-521 | Adding a tracked button keeps every entity's button list unique and subscribed iff non-empty, with an id already handed out |
| HomeAssistants.RemoveTrackedKeepsInv | streamdeck_ui/homeassistant.py:530-559 | Removing a tracked button keeps the same invariant |
| HomeAssistants.AddTrackedTwice | streamdeck_ui/homeassistant.py:494-498 | Adding a button a second time sends nothing and changes nothing |
| HomeAssistants.AddTrackedSubscribes | streamdeck_ui/homeassistant.py:494-521 | On a known entity the button ends listed; a subscribe message with the next id is sent and stored exactly when the button was new and the entity had no subscription; otherwise nothing is sent |
| HomeAssistants.AddThenRemove | streamdeck_ui/homeassistant.py:479-559 | Tracking then untracking a button on an untracked entity restores the entities, after one subscribe and the matching unsubscribe |
| HomeAssistants.AddToUntracked | streamdeck_ui/homeassistant.py:494-521 | Tracking a button on an entity with no buttons lists it alone and subscribes under the next message id |
| HomeAssistants.RemoveOnlyButton | streamdeck_ui/homeassistant.py:530-559 | Untracking the only button empties the list, clears the subscription and sends the matching unsubscribe |
| HomeAssistants.RemoveUntrackedUnsubscribes | streamdeck_ui/homeassistant.py:537-559 | Untracking on an entity with no buttons still sends an unsubscribe, for subscription id -1 |
| HomeAssistants.HomeAssistant.constructor | streamdeck_ui/homeassistant.py:42-60 | Empty URL, message id 0, no entities, nothing sent, invariant holds |
| HomeAssistants.HomeAssistant.SetUrl | streamdeck_ui/homeassistant.py:68-72 | The stored URL is `UrlHost` of the argument |
| HomeAssistants.HomeAssistant.CreateMessage | streamdeck_ui/homeassistant.py:468-470 | The message and the new counter are those of `NewMessage` |
| HomeAssistants.HomeAssistant.AddTrackedEntity | streamdeck_ui/homeassistant.py:479-521 | The result and new bookkeeping are those of the specification `AddTracked` |
| HomeAssistants.HomeAssistant.RemoveTrackedEntity | streamdeck_ui/homeassistant.py:530-559 | The result and new bookkeeping are those of the specification `RemoveTracked` |
| Gui.ReplaceSpecialKeys | streamdeck_ui/gui.py:849-857 | "plus" and "comma" in any case become "+" and ","; other names starting with "delay" in any case are lower-cased; everything else is unchanged |
| Gui.LowerKeeps | streamdeck_ui/gui.py:849-857 | Lower-casing brings in no character other than a lower-case letter |
| Gui.Cleaned | streamdeck_ui/gui.py:231 | The cleaned key specification holds no space |
| Gui.CleanedKeeps | streamdeck_ui/gui.py:231 | The cleaned specification holds exactly the characters of the stripped one, with the same multiplicities, except every space; a specification without whitespace is unchanged |
| Gui.SectionKeys | streamdeck_ui/gui.py:235 | A section yields one name per "+"-separated part, each mapped by `ReplaceSpecialKeys`; names hold no space, and no separator unless they are one spelt out or a pause |
| Gui.ParseKeySpec | streamdeck_ui/gui.py:231-235 | The cleaned specification yields one section per ","-separated part, each split by `SectionKeys` |
| Gui.ParseKeySpecRoundTrip | streamdeck_ui/gui.py:231-235 | Without special names, joining the parsed sections back gives the cleaned specification |
| Gui.Translate | streamdeck_ui/gui.py:238 | A name the key table knows in lower case becomes that key, any other stays the literal string |
| Gui.DelayArgument | streamdeck_ui/gui.py:241-251 | A pause's argument is the text after "delay", or "0.5" when there is none |
| Gui.NonDelay | streamdeck_ui/gui.py:268-269 | The keys of a section that are not pauses, each one a section key |
| Gui.PressedOfConcat | streamdeck_ui/gui.py:240-276 | The keys pressed and released by two action sequences in a row are those of each in turn |
| Gui.PressesMatchReleases | streamdeck_ui/gui.py:240-276 | The press loop presses exactly the non-pause keys in order and releases none; the release loop releases the same keys in the same order and presses none |
| Gui.RunSection | streamdeck_ui/gui.py:238-276 | A section's actions are its press phase followed by its release phase over the translated names |
| Gui.HandleKeypress | streamdeck_ui/gui.py:211-302 | Nothing happens on release or when reset woke the display; otherwise a set command runs, keys and write act only with a keyboard, a non-zero brightness change is applied, the page switch is `SwitchTarget`, and a service is called iff entity and service are both set |
| Gui.SwitchTarget | streamdeck_ui/gui.py:293-297 | A non-zero `switch_page` p selects page p-1, and 0 means no switch |
| Gui.NextVerticalAlign | streamdeck_ui/gui.py:407-420 | The alignment moves one step along "", "middle-bottom", "middle", "middle-top", "top" and back to ""; "bottom" counts as ""; unknown values go to "" |
| Gui.AlignCycle | streamdeck_ui/gui.py:411-420 | Five clicks bring every position back to itself |
| Gui.Succ | streamdeck_ui/gui.py:411-420 | The next index of the five-position cycle, wrapping from the last to the first |
| Gui.CapCpu | streamdeck_ui/gui.py:890-892 | The CPU gauge value is capped at 100 and otherwise kept |
| Gui.LabelSeconds | streamdeck_ui/gui.py:70-71 | An independent reading of a timeout label: "Never" is 0 |
| Gui.LabelParts | streamdeck_ui/gui.py:70-71 | A label "<count> <unit>" splits at the space into the count's digits and the unit |
| Gui.NatStrings | streamdeck_ui/gui.py:70-71 | The counts the labels use read "1", "5", "10", "15" and "30" |
| Gui.LabelReads | streamdeck_ui/gui.py:70-71 | "<n> <unit>" reads as n times the unit's seconds |
| Gui.DimmerOptionsEntries | streamdeck_ui/gui.py:70-71 | The corrected option table, entry by entry |
| Gui.ShortOptionsMatchLabels | streamdeck_ui/gui.py:70 | "10 Seconds", "1 Minute" and "5 Minutes" read as 10, 60 and 300 seconds |
| Gui.MinuteOptionsMatchLabels | streamdeck_ui/gui.py:70-71 | "10 Minutes", "15 Minutes" and "30 Minutes" read as 600, 900 and 1800 seconds |
| Gui.HourOptionsMatchLabels | streamdeck_ui/gui.py:71 | "1 Hour", "5 Hours" and "10 Hours" read as 3600, 18000 and 36000 seconds |
| Gui.DimmerOptionsMatchLabels | streamdeck_ui/gui.py:70-71 | Every corrected option's value is the duration its label reads as |
| Gui.FiveHoursAsWritten | streamdeck_ui/gui.py:71 | As written "5 Hours" maps to 7200 although the label reads 18000; every other entry agrees with the corrected table |
| Gui.DimmerOptionsIncrease | streamdeck_ui/gui.py:70-71 | The corrected options are listed by strictly increasing timeout |
| Gui.DimmerOptionsUniqueLabels | streamdeck_ui/gui.py:70-71 | No two options share a label |
| Gui.DimmerOptionsNotCustom | streamdeck_ui/gui.py:70-71 | No option label starts with "Custom: " |
| Gui.IndexOfValue | streamdeck_ui/gui.py:680 | The first option with the stored timeout, or none when no option has it |
| Gui.CustomLabel | streamdeck_ui/gui.py:683 | The added entry's label starts with "Custom: " |
| Gui.ShowSettings | streamdeck_ui/gui.py:676-687 | The list holds every option, plus one "Custom" entry when the timeout is no option's; the selected entry carries the stored timeout and is the first option with it, or the custom entry |
| Gui.Lookup | streamdeck_ui/gui.py:885 | `dimmer_options.get(label)` finds a value iff some option has that label, and then it is the value of the last option with that label (a later dictionary key overwrites an earlier one) |
| Gui.SelectedDisablesDim | streamdeck_ui/gui.py:676-687 | With unique non-custom labels, what `disable_dim_settings` decides for the entry the dialog selects: disable iff the timeout is 0 and some option has 0 |
| Gui.DimmerOptionsDisableIffNever | streamdeck_ui/gui.py:884-887 | With the option table, what `disable_dim_settings` decides for the entry the dialog selects: disable iff the stored timeout is 0 |
| Strings.DigitChar | streamdeck_ui/homeassistant.py:604 | A digit value maps to a digit character |
| Strings.DigitValue | streamdeck_ui/homeassistant.py:609 | A digit character's value maps back to the same character |
| Strings.NatToString | streamdeck_ui/homeassistant.py:604 | `str(n)` of a natural number is non-empty and all digits |
| Strings.ParseDigits | streamdeck_ui/homeassistant.py:609 | A string has a digits value iff it is non-empty and all digits |
| Strings.DigitsOfNat | streamdeck_ui/homeassistant.py:603-609 | The digits of `str(n)` have value n |
| Strings.ParseIntOfIntToString | streamdeck_ui/homeassistant.py:603-609 | `int(str(n)) == n` for every integer |
| Strings.ParseIntOfNatToString | streamdeck_ui/homeassistant.py:603-609 | `int(str(n)) == n` for every natural number |
| Strings.ParseIntOfNegative | streamdeck_ui/homeassistant.py:603-609 | `int(str(n)) == n` for negative n |
| Strings.Split | streamdeck_ui/homeassistant.py:608 | `split` gives at least one part, no part holds the separator, and every character of a part comes from the string |
| Strings.JoinOfSplit | streamdeck_ui/gui.py:232-235 | Joining the parts of a split gives the string back |
| Strings.SplitOfPrefix | streamdeck_ui/homeassistant.py:604-608 | A separator-free prefix, the separator and a rest split into the prefix followed by the rest's parts |
| Strings.SplitOfPlain | streamdeck_ui/homeassistant.py:608 | A string without the separator splits into itself |
| Strings.SplitOfJoin | streamdeck_ui/homeassistant.py:604-608 | Splitting separator-free parts joined with the separator gives the parts back |
| Strings.Lower | streamdeck_ui/gui.py:849-857 | Lower-casing keeps the length and maps each character: A-Z to a-z, the Kelvin sign to "k", every other character to itself |
| Strings.FindFrom | streamdeck_ui/homeassistant.py:69 | The first occurrence at or after a position, or none |
| Strings.Find | streamdeck_ui/homeassistant.py:69 | The first occurrence of a pattern, or none when it does not occur |
| Strings.PrefixBeforeFirst | streamdeck_ui/homeassistant.py:70 | A prefix ending before the first occurrence does not contain the pattern |
| Strings.MissingCharNoFind | streamdeck_ui/homeassistant.py:579 | A string lacking a character of the pattern does not contain it |
| Strings.ReplaceAllAbsent | streamdeck_ui/homeassistant.py:580 | Replacing a pattern that does not occur changes nothing |
| Strings.ReplaceAtFirst | streamdeck_ui/homeassistant.py:580 | When the pattern occurs, the result is the text before its first occurrence, the replacement, and the replacement applied to the rest after that occurrence |
| Strings.ReplaceAtFirstOccurrence | streamdeck_ui/homeassistant.py:580 | At a position where the pattern occurs, with no earlier occurrence, the result is the text before it, the replacement, and the replacement applied after it |
| Strings.ReplaceThroughTail | streamdeck_ui/homeassistant.py:580 | That split of the tail, with the first character not starting the pattern, gives the same split of the whole text |
| Strings.TailOccurrences | streamdeck_ui/homeassistant.py:580 | A first occurrence at a later position is a first occurrence one position earlier in the tail, and the text does not start with the pattern |
| Strings.ReplaceAtStart | streamdeck_ui/homeassistant.py:580 | A text starting with the pattern has it replaced first |
| Strings.ReplacePastFirst | streamdeck_ui/homeassistant.py:580 | A text not starting with the pattern keeps its first character |
| Strings.RemoveChar | streamdeck_ui/gui.py:231 | `replace(" ", "")` leaves no space, keeps every other character with its multiplicity, and changes nothing when there is no space |
| Strings.RemoveCharOfConcat | streamdeck_ui/gui.py:231 | Removing a character distributes over concatenation |
| Strings.RemoveCharCons | streamdeck_ui/gui.py:231 | The first character is dropped exactly when it is the removed one |
| Strings.StripLeft | streamdeck_ui/gui.py:231 | The result is a suffix of the text, everything cut off is whitespace, and the result does not start with whitespace |
| Strings.StripRight | streamdeck_ui/gui.py:231 | The result is a prefix of the text, everything cut off is whitespace, and the result does not end with whitespace |
| Strings.Strip | streamdeck_ui/gui.py:231 | `strip()` gives a contiguous slice of the text whose two ends are not whitespace, everything cut off on either side is whitespace, and a text without whitespace is unchanged |
| Strings.StripSlice | streamdeck_ui/gui.py:231 | Stripping both sides gives the slice of the text that starts where the left strip stopped |
| Strings.StripRightOfLeft | streamdeck_ui/gui.py:231 | Everything after that slice is whitespace |
| Strings.StripNoSpace | streamdeck_ui/gui.py:231 | A text without whitespace strips to itself |
| Strings.SpaceRunEnd | streamdeck_ui/gui.py:231 | The run of whitespace from a position ends at the text's end or before a non-whitespace character |
| Strings.SpaceRunStart | streamdeck_ui/gui.py:231 | The run of whitespace before a position starts at the text's start or after a non-whitespace character |

## Left out

- Threads, timers and sleeping are not modelled: the dimmer's `threading.Timer` is a flag plus the `Fire` event, and the display grid's and monitor's threads are flags. This also covers `join`, the FPS bookkeeping and the sleep threshold of `DisplayGrid._run` (display_grid.py:90-107), and `key_event_lock`.
- Images, PIL, cairosvg and the concrete filters (image, text, pulse and empty) are abstract. The pulse filter's random seed and float brightness are not modelled.
- Python's built-in `hash` is an abstract function `combine`, so no claim about collisions is made.
- The websocket, asyncio and JSON traffic of the Home Assistant client are not modelled: connecting, authenticating, the receive loop, `get_state`, `call_service` and waiting for responses. Reading the MDI icon file is the parameter `icons`, and the entity table fetched on first use is the parameter `loaded`.
- `get_icon` and `add_tracked_entity` return early when not connected; the model describes the connected case.
- HomeAssistants.GetIcon: an entity record always has an icon here, so the `"None"` default of `entity.get("icon", "None")` is not modelled. The media-player branch uses the corrected table, so for "volume_down" it draws "volume-minus"; the code as written is GetIconAsWritten.
- File I/O is not modelled: `_save_state`, `export_config`, `import_config` and the reading and JSON decoding in `open_config`. A save is the counter `saves`. The loader starts from the decoded file (`RawConfig`).
- The `open_config` of the Home Assistant edition (streamdeck_ui_hass/api.py:156-187) is not modelled. Only the older `_open_config` is.
- A deck whose decoded entry lacks "buttons" is not told apart from one with an empty "buttons".
- Python's `int()` is modelled on an optional sign followed by digits. Whitespace, underscores and other bases are not accepted.
- The DisplayGrid methods that the APIs call (`replace`, `synchronize`, `get_image`, `set_keypress`, and the four-argument constructor) do not exist in display_grid.py. A handler is therefore a value that records its page, whether it was started and the filters it was given. `synchronize_display_filter` and the CPU accounting are not modelled.
- The filter constructors are called as written: `ImageFilter(icon)`, `PulseFilter()`, `TextFilter(text, font)` and `TextFilter(text, font, "middle", size)` (streamdeck_ui/api.py:457-466, streamdeck_ui_hass/api.py:655-676). The filter classes take the key size first (display/image_filter.py:17, display/pulse_filter.py:9, display/text_filter.py:15), so these calls would fail or bind the wrong arguments. The filter records keep the arguments as the callers pass them, and this mismatch is not modelled.
- Device calls other than `set_brightness` are not modelled: open, reset, close, key callbacks, `connected()` as anything but a parameter, and the TransportError or other errors raised during cleanup.
- The plug-in event signals, the key-change callback and the Qt signal emitters are not modelled.
- HassApi.StreamDeckServer.SetButtonField: after writing, the entity and service setters call into the Home Assistant client (tracking, `get_state`, icon or text update, and resetting the service combo box). Those follow-up calls are not modelled, because they go over the websocket and the Qt widgets.
- The Home Assistant edition's `stop_dimmer`, `set_display_timeout` and `set_brightness_dimmed` are not modelled. They are single stores or calls, the same as `LegacyApi.Api.SetDeckSetting` and `Dimmers.Dimmer.Stop`. The URL, token, port and SSL setters are not modelled either.
- Gui.HandleKeypress returns what a key press triggers instead of running it. `Popen` with `shlex`, pynput, float parsing of the delay, hexadecimal key codes and the printed error messages are left out.
- Gui.RunSection records the actions instead of performing them. A press or release that raises is not modelled.
- The Qt widgets and dialogs, `__main__` and the plug-in template are UI or process lifecycle, so they are left out.
- Pipelines.FirstRunGivesImage: the source promises a non-null image on a first run. With abstract filters that holds only when the last filter answers or already has an image, so the lemma requires it.
- Dimmers.StopStep: the callback cannot fail in the model, so swallowing its KeyError leaves no trace.
- Gui.SelectedDisablesDim: it states what `disable_dim_settings` decides for the entry the settings dialog selects. The dialog connects that handler (gui.py:695) only after selecting the entry (gui.py:685 and 687), so it does not run for the initial selection, and the dialog opens with the dimmed-brightness controls enabled until the selection changes. The dialog itself is not modelled.
- Gui.DimmerOptionsDisableIffNever: the same holds; it is the decision for the selected entry once the handler runs, not the state the dialog opens in.
- Strings.Lower: only A-Z and the Kelvin sign are lowered. Other non-ASCII upper-case letters, which Python's `lower` also changes (some into two characters), keep their case. The names it is compared with ("plus", "comma", "delay") are ASCII.
- HomeAssistants.DecodeEncode: the round trip holds only for non-negative page and button numbers. DecodeEncodeNegativePage shows that a negative page does not come back.

## Findings

| source | as written | input that shows it | evidently intended | confidence | as-written member | corrected member |
|---|---|---|---|---|---|---|
| streamdeck_ui/homeassistant.py:284-285 | the media-player icon for "volume_down" is the name "entity_id, volume-minus" | service "volume_down" on any media player: the name is no MDI icon name, so the default lightning icon is drawn | "volume-minus" | high, not executed | HomeAssistants.GetIconVolumeDown | HomeAssistants.GetIcon |
| streamdeck_ui/gui.py:70-71 | `dimmer_options` maps "5 Hours" to 7200 seconds | choosing "5 Hours" in the settings dialog dims after 2 hours | 18000 seconds | high, not executed | Gui.FiveHoursAsWritten | Gui.DimmerOptionsMatchLabels |
| streamdeck_ui/display/display_grid.py:58-65 | `image = pipeline.execute(...)` binds the pair (image, hash), which is never `None` and always truthy | any page without a switch whose pipeline reports no change: the substitution never runs, and the pair goes on to `to_native_format` (a library call not part of this model) and then to `set_key_image` in place of an image | take the image part of the pair, substitute `last_result()` on a page switch, push only non-null images | high, not executed | DisplayGrids.AsWrittenPushesUnchanged | DisplayGrids.NoChangeNoFrame |
| streamdeck_ui_hass/api.py:110 | `toggle_dimmers` reads `dimmer.dimmed`, but `Dimmer` stores the flag as `self.__dimmed` (streamdeck_ui/dimmer.py:19, name-mangled to `_Dimmer__dimmed`) | `toggle_dimmers()` with at least one dimmer registered: AttributeError, no dimmer changes | read each dimmer's dimmed flag | medium (the edition imports a top-level `dimmer` module, taken to be streamdeck_ui/dimmer.py), not executed | HassApi.StreamDeckServer.ToggleDimmersAsWritten | HassApi.StreamDeckServer.ToggleDimmers |
| streamdeck_ui/stream_deck_monitor.py:39 | the guard `not self.quit.is_set` negates the bound method, which is always truthy, so it never returns | `start(); start()` on a new monitor: two monitor threads run | nothing happens while a thread is running | high, not executed | Monitors.StartTwiceAsWritten | Monitors.StartTwiceIntended |
