/** The non-network part of the Home Assistant client
    (streamdeck_ui/homeassistant.py): the button key encoding, the URL
    handling, the message-id counter, the icon decisions and the bookkeeping of
    which buttons track which entity.

    The websockets are not modelled: a message that the source sends is
    appended to `sent`. The MDI icon table read from a JSON file is the
    parameter `icons` (icon name -> SVG path), and the entity table that
    `_load_domains_and_entities` fetches over the websocket is the parameter
    `loaded`. */
module HomeAssistants {
  import opened Wrappers
  import opened Strings

  const ColorOn := "#eeff1b"
  const ColorOff := "#bebebe"
  const MdiTransform := "fill=\"<color>\" transform=\"translate(4.5, 5) scale(<scale>)\""
  const MdiDefaultPath := "M7,2V13H10V22L17,10H13L17,2H7Z"
  const ButtonEncodeSymbol := '-'
  /** `str(ICON_SCALE)` for `ICON_SCALE = 0.66`. */
  const IconScaleText := "0.66"

  /** `_encode_deck_id_page_button`: "deck-page-button". */
  function Encode(deckId: string, page: int, button: int): (r: string)
    ensures StartsWith(r, deckId + [ButtonEncodeSymbol])
  {
    deckId + [ButtonEncodeSymbol] + IntToString(page) + [ButtonEncodeSymbol] + IntToString(button)
  }

  /** `_decode_deck_id_page_button`: split on "-", then `values[0]`,
      `int(values[1])`, `int(values[2])`, evaluated left to right. Missing
      parts raise IndexError, malformed numbers ValueError, and parts beyond
      the third are ignored. */
  function Decode(encoded: string): (r: Result<(string, int, int)>)
    ensures |Split(encoded, ButtonEncodeSymbol)| < 2 ==> r == Err(IndexError)
    ensures r.Ok? ==> var values := Split(encoded, ButtonEncodeSymbol);
            |values| >= 3 && r.value.0 == values[0] &&
            ParseInt(values[1]) == Ok(r.value.1) && ParseInt(values[2]) == Ok(r.value.2)
  {
    var values := Split(encoded, ButtonEncodeSymbol);
    if |values| < 2 then Err(IndexError)
    else
      var page :- ParseInt(values[1]);
      if |values| < 3 then Err(IndexError)
      else
        var button :- ParseInt(values[2]);
        Ok((values[0], page, button))
  }

  /** A deck id without "-" and non-negative page and button numbers come back
      unchanged from encoding and decoding. */
  lemma DecodeEncode(deckId: string, page: nat, button: nat)
    requires ButtonEncodeSymbol !in deckId
    ensures Decode(Encode(deckId, page, button)) == Ok((deckId, page, button))
  {
    var parts := [deckId, IntToString(page), IntToString(button)];
    assert parts[1..] == [IntToString(page), IntToString(button)];
    assert parts[1..][1..] == [IntToString(button)];
    assert Join(parts[1..][1..], ButtonEncodeSymbol) == IntToString(button);
    assert Join(parts[1..], ButtonEncodeSymbol) == IntToString(page) + [ButtonEncodeSymbol] + IntToString(button);
    assert Encode(deckId, page, button) == Join(parts, ButtonEncodeSymbol);
    forall i | 0 <= i < |parts| ensures ButtonEncodeSymbol !in parts[i] {
      if i > 0 {
        assert AllDigits(parts[i]);
      }
    }
    SplitOfJoin(parts, ButtonEncodeSymbol);
    ParseIntOfIntToString(page);
    ParseIntOfIntToString(button);
  }

  /** The minus sign of a negative page is read as a separator, so the
      page part of its encoding is the empty string. */
  lemma EncodeNegativePage(deckId: string, page: int, button: int)
    requires ButtonEncodeSymbol !in deckId && page < 0
    ensures var values := Split(Encode(deckId, page, button), ButtonEncodeSymbol);
            |values| >= 2 && values[1] == []
  {
    var tail := NatToString(-page) + [ButtonEncodeSymbol] + IntToString(button);
    var rest := [ButtonEncodeSymbol] + tail;
    assert Encode(deckId, page, button) == deckId + [ButtonEncodeSymbol] + rest;
    SplitOfPrefix(deckId, ButtonEncodeSymbol, rest);
    assert [] + [ButtonEncodeSymbol] + tail == rest;
    SplitOfPrefix([], ButtonEncodeSymbol, tail);
  }

  /** So a negative page number breaks the round trip. */
  lemma DecodeEncodeNegativePage(deckId: string, page: int, button: int)
    requires ButtonEncodeSymbol !in deckId && page < 0
    ensures Decode(Encode(deckId, page, button)).Err?
  {
    EncodeNegativePage(deckId, page, button);
    assert ParseInt([]).Err?;
  }

  /** The segment of `url` that `url.split("//")[1]` selects, given where the
      first "//" starts. */
  function SecondSegment(url: string, first: nat): (r: string)
    requires OccursAt(url, "//", first)
    ensures StartsWith(url[first + 2..], r) && Find(r, "//").None?
    ensures r == url[first + 2..] || OccursAt(url, "//", first + 2 + |r|)
  {
    var rest := url[first + 2..];
    match Find(rest, "//")
    case None => rest
    case Some(j) =>
      PrefixBeforeFirst(rest, "//", j);
      assert url[first + 2 + j] == rest[j] && url[first + 2 + j + 1] == rest[j + 1];
      assert url[first + 2 + j..first + 2 + j + 2] == rest[j..j + 2];
      rest[..j]
  }

  /** `set_url`: the part after the first "//" (up to any further "//") when
      there is one, the URL verbatim otherwise. */
  function UrlHost(url: string): (r: string)
    ensures Find(url, "//").None? ==> r == url
    ensures Find(url, "//").Some? ==> r == SecondSegment(url, Find(url, "//").value)
  {
    match Find(url, "//")
    case None => url
    case Some(i) => SecondSegment(url, i)
  }

  /** A scheme and a host that each lack "//" give back the host. */
  lemma UrlHostOfSchemeAndHost(scheme: string, host: string)
    requires Find(scheme, "//").None? && Find(host, "//").None?
    requires |scheme| == 0 || scheme[|scheme| - 1] != '/'
    requires |host| == 0 || host[0] != '/'
    ensures UrlHost(scheme + "//" + host) == host
  {
    var url := scheme + "//" + host;
    assert OccursAt(url, "//", |scheme|) by {
      assert url[|scheme|..|scheme| + 2] == "//";
    }
    forall j | 0 <= j < |scheme| ensures !OccursAt(url, "//", j) {
      if j + 2 <= |scheme| {
        assert url[j..j + 2] == scheme[j..j + 2];
        assert !OccursAt(scheme, "//", j);
      } else {
        assert j == |scheme| - 1;
        assert url[j..j + 2][0] == url[j] == scheme[j];
      }
    }
    assert Find(url, "//") == Some(|scheme|);
    assert url[|scheme| + 2..] == host;
  }

  /** `set_url("url")` stores "url". */
  lemma UrlHostPlain()
    ensures UrlHost("url") == "url"
  {
    MissingCharNoFind("url", "//", 0);
  }

  /** `is_button_icon`. */
  predicate IsButtonIcon(state: string, domain: string) {
    state == "on" || state == "off" || domain == "media_player"
  }

  /** Switch-like states and media players are drawn as icons; any other
      state of any other domain is not. */
  lemma ButtonIconCases(state: string, domain: string)
    requires state != "on" && state != "off" && domain != "media_player"
    ensures IsButtonIcon("on", domain) && IsButtonIcon("off", domain) && IsButtonIcon(state, "media_player")
    ensures !IsButtonIcon(state, domain)
  {
  }

  /** The name an icon is looked up under: any "mdi:" is removed. */
  function IconName(name: string): (r: string)
    ensures Find(name, "mdi:").None? ==> r == name
  {
    if Contains(name, "mdi:") then ReplaceAll(name, "mdi:", "") else name
  }

  /** The path of a named icon, with the default for names that are unknown
      or have an empty path. */
  function IconPath(icons: map<string, string>, name: string): (r: string)
    ensures r != ""
    ensures name in icons && icons[name] != "" ==> r == icons[name]
    ensures name !in icons || icons[name] == "" ==> r == MdiDefaultPath
  {
    var path := if name in icons then icons[name] else "";
    if path == "" then MdiDefaultPath else path
  }

  function SvgDocument(title: string, path: string): string {
    "<svg xmlns=\"http://www.w3.org/2000/svg\" viewBox=\"0 0 24 24\"><title>" + title +
    "</title><path d=\"" + path + "\" /></svg>"
  }

  /** `_get_icon_svg`: an SVG document titled with the icon name, drawing the
      icon's path or the default one. */
  function GetIconSvg(icons: map<string, string>, name: string): (r: string)
    ensures r == SvgDocument(IconName(name), IconPath(icons, IconName(name)))
  {
    var n := IconName(name);
    SvgDocument(n, IconPath(icons, n))
  }

  /** An "mdi:" prefix makes no difference to the icon. */
  lemma IconSvgIgnoresMdiPrefix(icons: map<string, string>, name: string)
    requires Find(name, "mdi:").None?
    ensures GetIconSvg(icons, "mdi:" + name) == GetIconSvg(icons, name)
  {
    var prefixed := "mdi:" + name;
    assert prefixed[..4] == "mdi:" && prefixed[4..] == name;
    assert OccursAt(prefixed, "mdi:", 0);
    assert Contains(prefixed, "mdi:");
    ReplaceAllAbsent(name, "mdi:", "");
    assert ReplaceAll(prefixed, "mdi:", "") == name;
  }

  /** An unknown icon name draws the default path. */
  lemma IconSvgUnknownName(icons: map<string, string>, name: string)
    requires Find(name, "mdi:").None? && name !in icons
    ensures GetIconSvg(icons, name) == SvgDocument(name, MdiDefaultPath)
  {
  }

  /** The characters of an MDI icon name: lower-case letters, digits and "-". */
  predicate IsMdiName(s: string) {
    |s| > 0 && forall i :: 0 <= i < |s| ==> ('a' <= s[i] <= 'z' || '0' <= s[i] <= '9' || s[i] == '-')
  }

  /** The media-player branch of `_async_get_icon` as written: the
      "volume_down" entry is "entity_id, volume-minus". */
  function MediaPlayerIconNameAsWritten(service: string, state: string): string {
    if service == "media_play_pause" then (if state == "playing" then "pause" else "play")
    else if service == "media_stop" then "stop"
    else if service == "volume_up" then "volume-plus"
    else if service == "volume_down" then "entity_id, volume-minus"
    else if service == "media_next_track" then "skip-next"
    else if service == "media_previous_track" then "skip-previous"
    else "alert-circle"
  }

  /** The icon name of a media-player button, chosen by the service it calls
      (and for play/pause by the player's state), with "volume-minus" for
      "volume_down". Every answer is a well-formed MDI name. */
  function MediaPlayerIconName(service: string, state: string): (r: string)
    ensures IsMdiName(r)
    ensures service == "media_play_pause" ==> r == (if state == "playing" then "pause" else "play")
    ensures service != "media_play_pause" ==> r == MediaPlayerServiceIcon(service)
  {
    if service == "media_play_pause" then
      assert IsMdiName("pause") && IsMdiName("play");
      if state == "playing" then "pause" else "play"
    else MediaPlayerServiceIcon(service)
  }

  /** The fixed icon of every media-player service other than play/pause. */
  function MediaPlayerServiceIcon(service: string): (r: string)
    ensures IsMdiName(r)
  {
    if service == "media_stop" then assert IsMdiName("stop"); "stop"
    else if service == "volume_up" then assert IsMdiName("volume-plus"); "volume-plus"
    else if service == "volume_down" then assert IsMdiName("volume-minus"); "volume-minus"
    else if service == "media_next_track" then assert IsMdiName("skip-next"); "skip-next"
    else if service == "media_previous_track" then assert IsMdiName("skip-previous"); "skip-previous"
    else assert IsMdiName("alert-circle"); "alert-circle"
  }

  /** The two tables agree on every service but "volume_down". */
  lemma IconTablesAgree(service: string, state: string)
    requires service != "volume_down"
    ensures MediaPlayerIconNameAsWritten(service, state) == MediaPlayerIconName(service, state)
  {
    if service != "media_play_pause" {
      assert MediaPlayerIconName(service, state) == MediaPlayerServiceIcon(service);
    }
  }

  /** On "volume_down" the table as written yields a name that is no MDI
      name, so with any icon table keyed by MDI names the button draws the
      default icon. */
  lemma VolumeDownAsWritten(icons: map<string, string>, state: string)
    requires forall k :: k in icons ==> IsMdiName(k)
    ensures !IsMdiName(MediaPlayerIconNameAsWritten("volume_down", state))
    ensures GetIconSvg(icons, MediaPlayerIconNameAsWritten("volume_down", state)) ==
            SvgDocument("entity_id, volume-minus", MdiDefaultPath)
  {
    var n := "entity_id, volume-minus";
    assert MediaPlayerIconNameAsWritten("volume_down", state) == n;
    assert n[9] == ',';
    assert !IsMdiName(n);
    assert n !in icons;
    assert ':' !in n;
    MissingCharNoFind(n, "mdi:", 3);
  }

  /** The final substitutions of `_async_get_icon`: the path gets the fill and
      transform attributes, then the scale and colour placeholders are filled. */
  function Colorize(svg: string, color: string): string {
    ReplaceAll(ReplaceAll(ReplaceAll(svg, "<path", "<path " + MdiTransform), "<scale>", IconScaleText), "<color>", color)
  }

  /** What `load` stores per entity. */
  datatype EntityInfo = EntityInfo(state: string, icon: string, buttons: seq<string>, subscriptionId: int)

  type Entities = map<string, map<string, EntityInfo>>

  /** The domain of an entity id: the part before the first ".". */
  function Domain(entityId: string): string {
    Split(entityId, '.')[0]
  }

  /** `_async_get_icon` with the media player's icon name given. A media
      player is drawn by that name and is always on-coloured. Any other entity
      uses its own icon, on-coloured exactly when its state is "on"; an
      unknown domain or entity is the AttributeError of `.get` on `None`. */
  function DrawIcon(icons: map<string, string>, entities: Entities, entityId: string, mediaIcon: string, state: string)
    : (r: Result<string>)
    ensures entityId == "" ==> r == Ok("")
    ensures entityId != "" && Domain(entityId) == "media_player" ==>
              r == Ok(Colorize(GetIconSvg(icons, mediaIcon), ColorOn))
    ensures entityId != "" && Domain(entityId) != "media_player" ==>
              (r.Ok? <==> Domain(entityId) in entities && entityId in entities[Domain(entityId)])
    ensures r.Ok? && entityId != "" && Domain(entityId) != "media_player" ==>
              r.value == Colorize(GetIconSvg(icons, entities[Domain(entityId)][entityId].icon),
                                  if state == "on" then ColorOn else ColorOff)
  {
    if entityId == "" then Ok("")
    else
      var domain := Domain(entityId);
      if domain == "media_player" then
        Ok(Colorize(GetIconSvg(icons, mediaIcon), ColorOn))
      else if domain !in entities then Err(AttributeError("get"))
      else if entityId !in entities[domain] then Err(AttributeError("get"))
      else
        var color := if state == "on" then ColorOn else ColorOff;
        Ok(Colorize(GetIconSvg(icons, entities[domain][entityId].icon), color))
  }

  /** `_async_get_icon` as intended: a media player's icon comes from the
      corrected table, so "volume_down" draws "volume-minus". The rest of the
      model uses this one. */
  function GetIcon(icons: map<string, string>, entities: Entities, entityId: string, service: string, state: string)
    : (r: Result<string>)
    ensures entityId == "" ==> r == Ok("")
    ensures entityId != "" && Domain(entityId) == "media_player" ==>
              r == Ok(Colorize(GetIconSvg(icons, MediaPlayerIconName(service, state)), ColorOn))
    ensures entityId != "" && Domain(entityId) != "media_player" ==>
              (r.Ok? <==> Domain(entityId) in entities && entityId in entities[Domain(entityId)])
    ensures r.Ok? && entityId != "" && Domain(entityId) != "media_player" ==>
              r.value == Colorize(GetIconSvg(icons, entities[Domain(entityId)][entityId].icon),
                                  if state == "on" then ColorOn else ColorOff)
  {
    DrawIcon(icons, entities, entityId, MediaPlayerIconName(service, state), state)
  }

  /** `_async_get_icon` as written, with "entity_id, volume-minus" for
      "volume_down". */
  function GetIconAsWritten(icons: map<string, string>, entities: Entities, entityId: string, service: string, state: string)
    : (r: Result<string>)
    ensures entityId != "" && Domain(entityId) == "media_player" ==>
              r == Ok(Colorize(GetIconSvg(icons, MediaPlayerIconNameAsWritten(service, state)), ColorOn))
  {
    DrawIcon(icons, entities, entityId, MediaPlayerIconNameAsWritten(service, state), state)
  }

  /** The written and the intended icon differ only for the "volume_down"
      button of a media player. */
  lemma {:induction false} GetIconAgrees(icons: map<string, string>, entities: Entities, entityId: string, service: string, state: string)
    requires entityId == "" || Domain(entityId) != "media_player" || service != "volume_down"
    ensures GetIconAsWritten(icons, entities, entityId, service, state) == GetIcon(icons, entities, entityId, service, state)
  {
    if service != "volume_down" {
      IconTablesAgree(service, state);
    }
  }

  /** As written, a media player's "volume_down" button draws the default
      icon titled "entity_id, volume-minus", where the intended one draws the
      table's "volume-minus" entry. */
  lemma GetIconVolumeDown(icons: map<string, string>, entities: Entities, entityId: string, state: string)
    requires forall k :: k in icons ==> IsMdiName(k)
    requires entityId != "" && Domain(entityId) == "media_player"
    ensures GetIconAsWritten(icons, entities, entityId, "volume_down", state) ==
            Ok(Colorize(SvgDocument("entity_id, volume-minus", MdiDefaultPath), ColorOn))
    ensures GetIcon(icons, entities, entityId, "volume_down", state) ==
            Ok(Colorize(GetIconSvg(icons, "volume-minus"), ColorOn))
  {
    VolumeDownAsWritten(icons, state);
    assert MediaPlayerIconName("volume_down", state) == "volume-minus";
  }

  /** What a message is about. */
  datatype Subject = NoSubject | Trigger(entityId: string) | Subscription(subscriptionId: int)

  datatype Message = Message(id: int, kind: string, subject: Subject)

  /** The client's bookkeeping: the id counter, the entity table and every
      message sent so far. */
  datatype HassState = HassState(messageId: int, entities: Entities, sent: seq<Message>)

  /** Every entity lists each button once, and it is subscribed (with an id
      already handed out) exactly when it has buttons. */
  ghost predicate Inv(s: HassState) {
    s.messageId >= 0 &&
    forall d, e :: d in s.entities && e in s.entities[d] ==>
      var info := s.entities[d][e];
      Unique(info.buttons) &&
      (|info.buttons| == 0 <==> info.subscriptionId == -1) &&
      (info.subscriptionId != -1 ==> 1 <= info.subscriptionId <= s.messageId)
  }

  /** A table as `load` builds it: no buttons, not subscribed. */
  ghost predicate Fresh(entities: Entities) {
    forall d, e :: d in entities && e in entities[d] ==>
      entities[d][e].buttons == [] && entities[d][e].subscriptionId == -1
  }

  /** `create_message`: the counter goes up by one and the message carries it. */
  function NewMessage(s: HassState, kind: string, subject: Subject): (r: (Message, HassState))
    ensures r.1.messageId == s.messageId + 1 && r.0.id == r.1.messageId && r.0.id > s.messageId
    ensures r.0.kind == kind && r.0.subject == subject
    ensures r.1.entities == s.entities && r.1.sent == s.sent
  {
    var m := Message(s.messageId + 1, kind, subject);
    (m, s.(messageId := s.messageId + 1))
  }

  /** Successive messages carry strictly increasing ids. */
  lemma MessageIdsIncrease(s: HassState, k1: string, j1: Subject, k2: string, j2: Subject)
    ensures var (m1, s1) := NewMessage(s, k1, j1);
            var (m2, s2) := NewMessage(s1, k2, j2);
            m1.id < m2.id && s2.messageId == s.messageId + 2
  {
  }

  function SetEntity(s: HassState, domain: string, entityId: string, info: EntityInfo): HassState
    requires domain in s.entities
  {
    s.(entities := s.entities[domain := s.entities[domain][entityId := info]])
  }

  /** `_async_add_tracked_entity`. `loaded` is the table that loading would
      fetch, used when the table is empty (loading spends one message id). */
  function AddTracked(s: HassState, loaded: Entities, entityId: string, deckId: string, page: int, button: int)
    : (r: (Result<()>, HassState))
  {
    if entityId == "" then (Ok(()), s)
    else
      var domain := Domain(entityId);
      var s1 := if s.entities == map[] then
          var (m, t) := NewMessage(s, "get_states", NoSubject);
          t.(entities := loaded, sent := t.sent + [m])
        else s;
      if domain !in s1.entities then (Err(AttributeError("get")), s1)
      else if entityId !in s1.entities[domain] then (Ok(()), s1)
      else
        var info := s1.entities[domain][entityId];
        var key := Encode(deckId, page, button);
        if key in info.buttons then (Ok(()), s1)
        else
          var added := info.(buttons := info.buttons + [key]);
          if info.subscriptionId > -1 then (Ok(()), SetEntity(s1, domain, entityId, added))
          else
            var (m, s2) := NewMessage(s1, "subscribe_trigger", Trigger(entityId));
            (Ok(()), SetEntity(s2.(sent := s2.sent + [m]), domain, entityId, added.(subscriptionId := m.id)))
  }

  /** `list.remove`: the first occurrence goes. */
  function RemoveFirst(xs: seq<string>, x: string): (r: seq<string>)
    requires x in xs
    ensures |r| == |xs| - 1
    ensures Unique(xs) ==> Unique(r) && x !in r && forall y :: y != x ==> (y in r <==> y in xs)
    decreases |xs|
  {
    if xs[0] == x then
      assert Unique(xs) ==> x !in xs[1..] by {
        if Unique(xs) {
          forall k | 0 <= k < |xs[1..]| ensures xs[1..][k] != x {
            assert xs[1..][k] == xs[k + 1];
          }
        }
      }
      assert forall y :: y in xs <==> y == x || y in xs[1..];
      xs[1..]
    else
      var rest := RemoveFirst(xs[1..], x);
      assert forall y :: y in xs <==> y == xs[0] || y in xs[1..];
      assert Unique(xs) ==> Unique(xs[1..]) && xs[0] !in xs[1..] by {
        if Unique(xs) {
          forall k | 0 <= k < |xs[1..]| ensures xs[1..][k] != xs[0] {
            assert xs[1..][k] == xs[k + 1];
          }
        }
      }
      [xs[0]] + rest
  }

  /** `_async_remove_tracked_entity`. There is no check for an empty id here,
      an unknown domain or entity raises AttributeError, and a button that was
      not listed is simply not removed. When no button is left an unsubscribe
      is sent with the stored subscription id, whatever it is. */
  function RemoveTracked(s: HassState, entityId: string, deckId: string, page: int, button: int)
    : (r: (Result<()>, HassState))
  {
    var domain := Domain(entityId);
    if domain !in s.entities || entityId !in s.entities[domain] then (Err(AttributeError("get")), s)
    else
      var info := s.entities[domain][entityId];
      var key := Encode(deckId, page, button);
      var kept := if key in info.buttons then info.(buttons := RemoveFirst(info.buttons, key)) else info;
      if |kept.buttons| > 0 then (Ok(()), SetEntity(s, domain, entityId, kept))
      else
        var (m, s1) := NewMessage(s, "unsubscribe_events", Subscription(info.subscriptionId));
        (Ok(()), SetEntity(s1.(sent := s1.sent + [m]), domain, entityId, kept.(subscriptionId := -1)))
  }

  lemma SetEntityKeepsInv(s: HassState, domain: string, entityId: string, info: EntityInfo)
    requires Inv(s) && domain in s.entities
    requires Unique(info.buttons) && (|info.buttons| == 0 <==> info.subscriptionId == -1)
    requires info.subscriptionId != -1 ==> 1 <= info.subscriptionId <= s.messageId
    ensures Inv(SetEntity(s, domain, entityId, info))
  {
  }

  /** Adding a tracked entity keeps the invariant. */
  lemma AddTrackedKeepsInv(s: HassState, loaded: Entities, entityId: string, deckId: string, page: int, button: int)
    requires Inv(s) && Fresh(loaded)
    ensures Inv(AddTracked(s, loaded, entityId, deckId, page, button).1)
  {
    if entityId != "" {
      var domain := Domain(entityId);
      var s1 := if s.entities == map[] then
          var (m, t) := NewMessage(s, "get_states", NoSubject);
          t.(entities := loaded, sent := t.sent + [m])
        else s;
      assert Inv(s1);
      if domain in s1.entities && entityId in s1.entities[domain] {
        var info := s1.entities[domain][entityId];
        var key := Encode(deckId, page, button);
        if key !in info.buttons {
          var added := info.(buttons := info.buttons + [key]);
          assert Unique(added.buttons);
          if info.subscriptionId > -1 {
            SetEntityKeepsInv(s1, domain, entityId, added);
          } else {
            var (m, s2) := NewMessage(s1, "subscribe_trigger", Trigger(entityId));
            SetEntityKeepsInv(s2.(sent := s2.sent + [m]), domain, entityId, added.(subscriptionId := m.id));
          }
        }
      }
    }
  }

  /** Removing a tracked entity keeps the invariant. */
  lemma RemoveTrackedKeepsInv(s: HassState, entityId: string, deckId: string, page: int, button: int)
    requires Inv(s)
    ensures Inv(RemoveTracked(s, entityId, deckId, page, button).1)
  {
    var domain := Domain(entityId);
    if domain in s.entities && entityId in s.entities[domain] {
      var info := s.entities[domain][entityId];
      var key := Encode(deckId, page, button);
      var kept := if key in info.buttons then info.(buttons := RemoveFirst(info.buttons, key)) else info;
      if |kept.buttons| > 0 {
        SetEntityKeepsInv(s, domain, entityId, kept);
      } else {
        var (m, s1) := NewMessage(s, "unsubscribe_events", Subscription(info.subscriptionId));
        SetEntityKeepsInv(s1.(sent := s1.sent + [m]), domain, entityId, kept.(subscriptionId := -1));
      }
    }
  }

  /** Once a button is tracked, adding it again sends nothing and changes
      nothing. */
  lemma AddTrackedTwice(s: HassState, loaded: Entities, entityId: string, deckId: string, page: int, button: int)
    ensures var s1 := AddTracked(s, loaded, entityId, deckId, page, button).1;
            AddTracked(s1, loaded, entityId, deckId, page, button).1 == s1 || s1.entities == map[]
  {
  }

  /** On a known entity, adding a button subscribes (one message, carrying the
      new id) exactly when the entity had no subscription and the button was
      new; the button is then listed. */
  lemma AddTrackedSubscribes(s: HassState, entityId: string, deckId: string, page: int, button: int)
    requires entityId != "" && s.entities != map[]
    requires Domain(entityId) in s.entities && entityId in s.entities[Domain(entityId)]
    ensures var info := s.entities[Domain(entityId)][entityId];
            var key := Encode(deckId, page, button);
            var after := AddTracked(s, map[], entityId, deckId, page, button).1;
            var info1 := after.entities[Domain(entityId)][entityId];
            key in info1.buttons &&
            (key !in info.buttons && info.subscriptionId <= -1 ==>
               after.sent == s.sent + [Message(s.messageId + 1, "subscribe_trigger", Trigger(entityId))] &&
               info1.subscriptionId == s.messageId + 1) &&
            (key in info.buttons || info.subscriptionId > -1 ==>
               after.sent == s.sent && after.messageId == s.messageId && info1.subscriptionId == info.subscriptionId)
  {
  }

  /** Tracking a button on an untracked entity and untracking it again leaves
      the entity as it was, after a subscribe and the matching unsubscribe. */
  lemma AddThenRemove(s: HassState, entityId: string, deckId: string, page: int, button: int)
    requires Inv(s) && entityId != "" && s.entities != map[]
    requires Domain(entityId) in s.entities && entityId in s.entities[Domain(entityId)]
    requires s.entities[Domain(entityId)][entityId].buttons == []
    ensures var s1 := AddTracked(s, map[], entityId, deckId, page, button).1;
            var s2 := RemoveTracked(s1, entityId, deckId, page, button).1;
            var id := s.messageId + 1;
            s2.entities == s.entities &&
            s2.sent == s.sent + [Message(id, "subscribe_trigger", Trigger(entityId)),
                                 Message(id + 1, "unsubscribe_events", Subscription(id))]
  {
    var domain := Domain(entityId);
    var info := s.entities[domain][entityId];
    var key := Encode(deckId, page, button);
    AddToUntracked(s, entityId, key, deckId, page, button);
    var s1 := AddTracked(s, map[], entityId, deckId, page, button).1;
    var info1 := info.(buttons := [key], subscriptionId := s.messageId + 1);
    assert s1.entities[domain] == s.entities[domain][entityId := info1];
    assert s1.entities[domain][entityId] == info1;
    RemoveOnlyButton(s1, entityId, key, deckId, page, button);
    var s2 := RemoveTracked(s1, entityId, deckId, page, button).1;
    assert info1.(buttons := [], subscriptionId := -1) == info;
    assert s1.entities[domain][entityId := info] == s.entities[domain];
    assert s2.entities == s.entities[domain := s.entities[domain]];
    assert s2.sent == s1.sent + [Message(s1.messageId + 1, "unsubscribe_events", Subscription(info1.subscriptionId))];
  }

  /** Tracking a button on an entity with no buttons subscribes it under the
      next message id. */
  lemma AddToUntracked(s: HassState, entityId: string, key: string, deckId: string, page: int, button: int)
    requires Inv(s) && entityId != "" && s.entities != map[] && key == Encode(deckId, page, button)
    requires Domain(entityId) in s.entities && entityId in s.entities[Domain(entityId)]
    requires s.entities[Domain(entityId)][entityId].buttons == []
    ensures var s1 := AddTracked(s, map[], entityId, deckId, page, button).1;
            var domain := Domain(entityId);
            var info := s.entities[domain][entityId];
            s1.messageId == s.messageId + 1 &&
            s1.entities == s.entities[domain := s.entities[domain][entityId := info.(buttons := [key], subscriptionId := s.messageId + 1)]] &&
            s1.sent == s.sent + [Message(s.messageId + 1, "subscribe_trigger", Trigger(entityId))]
  {
    var info := s.entities[Domain(entityId)][entityId];
    assert info.subscriptionId == -1;
    assert info.buttons + [key] == [key];
  }

  /** Untracking the only button of an entity unsubscribes it. */
  lemma RemoveOnlyButton(s: HassState, entityId: string, key: string, deckId: string, page: int, button: int)
    requires key == Encode(deckId, page, button)
    requires Domain(entityId) in s.entities && entityId in s.entities[Domain(entityId)]
    requires s.entities[Domain(entityId)][entityId].buttons == [key]
    ensures var s1 := RemoveTracked(s, entityId, deckId, page, button).1;
            var domain := Domain(entityId);
            var info := s.entities[domain][entityId];
            s1.entities == s.entities[domain := s.entities[domain][entityId := info.(buttons := [], subscriptionId := -1)]] &&
            s1.sent == s.sent + [Message(s.messageId + 1, "unsubscribe_events", Subscription(info.subscriptionId))]
  {
    assert RemoveFirst([key], key) == [];
  }

  /** Untracking a button that no entity list holds, on an entity with no
      buttons, still sends an unsubscribe, for subscription id -1. */
  lemma RemoveUntrackedUnsubscribes(s: HassState, entityId: string, deckId: string, page: int, button: int)
    requires Domain(entityId) in s.entities && entityId in s.entities[Domain(entityId)]
    requires s.entities[Domain(entityId)][entityId].buttons == []
    requires s.entities[Domain(entityId)][entityId].subscriptionId == -1
    ensures RemoveTracked(s, entityId, deckId, page, button).1.sent ==
            s.sent + [Message(s.messageId + 1, "unsubscribe_events", Subscription(-1))]
  {
  }

  /** The client object. */
  class HomeAssistant {
    var url: string
    var messageId: int
    var entities: Entities
    var sent: seq<Message>

    function State(): HassState
      reads this
    {
      HassState(messageId, entities, sent)
    }

    constructor ()
      ensures url == "" && State() == HassState(0, map[], []) && Inv(State())
    {
      url := "";
      messageId := 0;
      entities := map[];
      sent := [];
    }

    method SetUrl(value: string)
      modifies this`url
      ensures url == UrlHost(value)
    {
      var position := Find(value, "//");
      if position.Some? {
        url := SecondSegment(value, position.value);
      } else {
        url := value;
      }
    }

    method CreateMessage(kind: string, subject: Subject) returns (m: Message)
      modifies this`messageId
      ensures (m, State()) == NewMessage(old(State()), kind, subject)
    {
      messageId := messageId + 1;
      m := Message(messageId, kind, subject);
    }

    method AddTrackedEntity(loaded: Entities, entityId: string, deckId: string, page: int, button: int)
      returns (r: Result<()>)
      modifies this`messageId, this`entities, this`sent
      ensures (r, State()) == AddTracked(old(State()), loaded, entityId, deckId, page, button)
    {
      if entityId == "" {
        return Ok(());
      }
      var domain := Domain(entityId);
      if entities == map[] {
        var m := CreateMessage("get_states", NoSubject);
        sent := sent + [m];
        entities := loaded;
      }
      if domain !in entities {
        return Err(AttributeError("get"));
      }
      if entityId !in entities[domain] {
        return Ok(());
      }
      var info := entities[domain][entityId];
      var key := Encode(deckId, page, button);
      if key in info.buttons {
        return Ok(());
      }
      info := info.(buttons := info.buttons + [key]);
      if info.subscriptionId > -1 {
        entities := entities[domain := entities[domain][entityId := info]];
        return Ok(());
      }
      var m := CreateMessage("subscribe_trigger", Trigger(entityId));
      sent := sent + [m];
      entities := entities[domain := entities[domain][entityId := info.(subscriptionId := m.id)]];
      return Ok(());
    }

    method RemoveTrackedEntity(entityId: string, deckId: string, page: int, button: int) returns (r: Result<()>)
      modifies this`messageId, this`entities, this`sent
      ensures (r, State()) == RemoveTracked(old(State()), entityId, deckId, page, button)
    {
      var domain := Domain(entityId);
      if domain !in entities || entityId !in entities[domain] {
        return Err(AttributeError("get"));
      }
      var info := entities[domain][entityId];
      var subscriptionId := info.subscriptionId;
      var key := Encode(deckId, page, button);
      if key in info.buttons {
        info := info.(buttons := RemoveFirst(info.buttons, key));
      }
      if |info.buttons| > 0 {
        entities := entities[domain := entities[domain][entityId := info]];
        return Ok(());
      }
      var m := CreateMessage("unsubscribe_events", Subscription(subscriptionId));
      sent := sent + [m];
      entities := entities[domain := entities[domain][entityId := info.(subscriptionId := -1)]];
      return Ok(());
    }
  }
}
