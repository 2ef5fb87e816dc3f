/** The decisions the Qt front end (streamdeck_ui/gui.py) makes on its own:
    how a button's key specification becomes key presses, what a key press
    does, the vertical-alignment cycle, the page a "switch page" button
    selects, the CPU gauge cap, and the display-timeout choices of the
    settings dialog. The widgets themselves are not part of this model. */
module Gui {
  import opened Wrappers
  import opened Strings

  /** A key name the keyboard library knows by name (after `Key` lookup) or
      a literal string passed on as it is. */
  datatype KeyName = Named(name: string) | Literal(text: string)

  /** `_replace_special_keys`: "plus" and "comma" in any letter case stand
      for the characters the specification syntax uses as separators, and a
      name starting with "delay" in any case is lower-cased. */
  function ReplaceSpecialKeys(key: string): (r: string)
    ensures Lower(key) == "plus" ==> r == "+"
    ensures Lower(key) == "comma" ==> r == ","
    ensures Lower(key) != "plus" && Lower(key) != "comma" && StartsWith(Lower(key), "delay") ==> r == Lower(key)
    ensures !Special(key) ==> r == key
  {
    if Lower(key) == "plus" then "+"
    else if Lower(key) == "comma" then ","
    else if StartsWith(Lower(key), "delay") then Lower(key)
    else key
  }

  /** The names `_replace_special_keys` changes. */
  predicate Special(key: string) {
    Lower(key) == "plus" || Lower(key) == "comma" || StartsWith(Lower(key), "delay")
  }

  /** The key specification as `handle_keypress` reads it: surrounding
      whitespace and every space removed, then split into sections on ","
      and each section into key names on "+" (`SectionKeys`). */
  function ParseKeySpec(keys: string): (r: seq<seq<string>>)
    ensures |r| == |Split(Cleaned(keys), ',')| >= 1
    ensures forall i :: 0 <= i < |r| ==> r[i] == SectionKeys(Split(Cleaned(keys), ',')[i])
  {
    var sections := Split(Cleaned(keys), ',');
    seq(|sections|, i requires 0 <= i < |sections| => SectionKeys(sections[i]))
  }

  /** One section's key names: split on "+", each mapped by
      `ReplaceSpecialKeys`. A name holds no space when the section holds
      none, and no separator unless it is one, spelt out, or a pause. */
  function SectionKeys(section: string): (r: seq<string>)
    ensures |r| == |Split(section, '+')| >= 1
    ensures forall j :: 0 <= j < |r| ==> r[j] == ReplaceSpecialKeys(Split(section, '+')[j])
    ensures ' ' !in section ==> forall j :: 0 <= j < |r| ==> ' ' !in r[j]
    ensures ',' !in section ==> forall j :: 0 <= j < |r| ==>
              r[j] == "+" || r[j] == "," || StartsWith(r[j], "delay") || ('+' !in r[j] && ',' !in r[j])
  {
    var names := Split(section, '+');
    forall j, c | 0 <= j < |names| && c in ReplaceSpecialKeys(names[j]) && (c == ' ' || c == '+' || c == ',') &&
                  ReplaceSpecialKeys(names[j]) != "+" && ReplaceSpecialKeys(names[j]) != ","
      ensures c in names[j]
    {
      if ReplaceSpecialKeys(names[j]) == Lower(names[j]) {
        LowerKeeps(names[j], c);
      }
    }
    seq(|names|, j requires 0 <= j < |names| => ReplaceSpecialKeys(names[j]))
  }

  /** Lower-casing brings in no character other than a lower-case letter. */
  lemma LowerKeeps(s: string, c: char)
    requires c in Lower(s) && !('a' <= c <= 'z')
    ensures c in s
  {
    var i :| 0 <= i < |s| && Lower(s)[i] == c;
    assert LowerChar(s[i]) == c;
  }

  /** `keys.strip().replace(" ", "")`. */
  function Cleaned(keys: string): (r: string)
    ensures ' ' !in r
  {
    RemoveChar(Strip(keys), ' ')
  }

  /** Cleaning takes out the surrounding whitespace and every space, keeps
      every other character as often as it was there, and leaves a
      specification without whitespace as it is. */
  lemma CleanedKeeps(keys: string)
    ensures multiset(Cleaned(keys)) == multiset(Strip(keys))[' ' := 0]
    ensures (forall i :: 0 <= i < |keys| ==> !IsSpace(keys[i])) ==> Cleaned(keys) == keys
  {
    if forall i :: 0 <= i < |keys| ==> !IsSpace(keys[i]) {
      assert Strip(keys) == keys;
    }
  }

  /** Sections joined back: key names with "+", sections with ",". */
  function Unparse(spec: seq<seq<string>>): string {
    Join(seq(|spec|, i requires 0 <= i < |spec| => Join(spec[i], '+')), ',')
  }

  /** With no special names in it, a key specification parses into sections
      that join back to the cleaned specification. */
  lemma ParseKeySpecRoundTrip(keys: string)
    requires forall i, j :: 0 <= i < |Split(Cleaned(keys), ',')| && 0 <= j < |Split(Split(Cleaned(keys), ',')[i], '+')| ==>
               !Special(Split(Split(Cleaned(keys), ',')[i], '+')[j])
    ensures Unparse(ParseKeySpec(keys)) == Cleaned(keys)
  {
    var sections := Split(Cleaned(keys), ',');
    var r := ParseKeySpec(keys);
    forall i | 0 <= i < |r|
      ensures Join(r[i], '+') == sections[i]
    {
      assert r[i] == Split(sections[i], '+');
      JoinOfSplit(sections[i], '+');
    }
    assert seq(|r|, i requires 0 <= i < |r| => Join(r[i], '+')) == sections;
    JoinOfSplit(Cleaned(keys), ',');
  }

  /** `getattr(Key, name.lower(), name)`: `isKey` says which lower-case
      names the keyboard library's `Key` enumeration has. */
  function Translate(name: string, isKey: string -> bool): (k: KeyName)
    ensures k.Named? <==> isKey(Lower(name))
    ensures k.Named? ==> k.name == Lower(name)
    ensures k.Literal? ==> k.text == name
  {
    if isKey(Lower(name)) then Named(Lower(name)) else Literal(name)
  }

  /** A string key that starts with "delay" is a pause, not a key. */
  predicate IsDelay(k: KeyName) {
    k.Literal? && StartsWith(k.text, "delay")
  }

  /** What pressing a button's keys does, in order. A pause keeps the text
      after "delay" ("0.5" when there is none) as the number of seconds. */
  datatype Action = Sleep(seconds: string) | Press(key: KeyName) | Release(key: KeyName)

  function DelayArgument(k: KeyName): (r: string)
    requires IsDelay(k)
    ensures |r| > 0
    ensures k.text == "delay" ==> r == "0.5"
    ensures k.text != "delay" ==> k.text == "delay" + r
  {
    var arg := k.text[5..];
    assert k.text == k.text[..5] + arg;
    if arg == "" then "0.5" else arg
  }

  /** The first loop over a section: a pause for each "delay" key and a press
      for every other key, in order. */
  function PressPhase(keys: seq<KeyName>): seq<Action>
    decreases |keys|
  {
    if |keys| == 0 then []
    else
      var k := keys[|keys| - 1];
      PressPhase(keys[..|keys| - 1]) + if IsDelay(k) then [Sleep(DelayArgument(k))] else [Press(k)]
  }

  /** The second loop: a release for every key that is not a pause, in the
      same order as the presses. */
  function ReleasePhase(keys: seq<KeyName>): seq<Action>
    decreases |keys|
  {
    if |keys| == 0 then []
    else
      var k := keys[|keys| - 1];
      ReleasePhase(keys[..|keys| - 1]) + if IsDelay(k) then [] else [Release(k)]
  }

  /** The keys that are not pauses. */
  function NonDelay(keys: seq<KeyName>): (r: seq<KeyName>)
    ensures forall i :: 0 <= i < |r| ==> !IsDelay(r[i]) && r[i] in keys
    ensures forall k :: k in keys && !IsDelay(k) ==> k in r
    decreases |keys|
  {
    if |keys| == 0 then []
    else
      var k := keys[|keys| - 1];
      assert forall x :: x in keys ==> x in keys[..|keys| - 1] || x == k;
      NonDelay(keys[..|keys| - 1]) + if IsDelay(k) then [] else [k]
  }

  /** The keys an action sequence presses, and those it releases. */
  function Pressed(actions: seq<Action>): seq<KeyName>
    decreases |actions|
  {
    if |actions| == 0 then []
    else
      var a := actions[|actions| - 1];
      Pressed(actions[..|actions| - 1]) + if a.Press? then [a.key] else []
  }

  function Released(actions: seq<Action>): seq<KeyName>
    decreases |actions|
  {
    if |actions| == 0 then []
    else
      var a := actions[|actions| - 1];
      Released(actions[..|actions| - 1]) + if a.Release? then [a.key] else []
  }

  lemma {:induction false} PressedOfConcat(a: seq<Action>, b: seq<Action>)
    ensures Pressed(a + b) == Pressed(a) + Pressed(b)
    ensures Released(a + b) == Released(a) + Released(b)
    decreases |b|
  {
    if |b| > 0 {
      var n := |b| - 1;
      assert (a + b)[..|a + b| - 1] == a + b[..n];
      assert (a + b)[|a + b| - 1] == b[n];
      PressedOfConcat(a, b[..n]);
    } else {
      assert a + b == a;
    }
  }

  /** Every key that is not a pause is pressed once and released once, the
      releases in the order of the presses, and nothing is released before
      everything was pressed. */
  lemma {:induction false} PressesMatchReleases(keys: seq<KeyName>)
    ensures Pressed(PressPhase(keys)) == NonDelay(keys)
    ensures Released(PressPhase(keys)) == []
    ensures Pressed(ReleasePhase(keys)) == []
    ensures Released(ReleasePhase(keys)) == NonDelay(keys)
    decreases |keys|
  {
    if |keys| > 0 {
      var init := keys[..|keys| - 1];
      var k := keys[|keys| - 1];
      PressesMatchReleases(init);
      PressedOfConcat(PressPhase(init), if IsDelay(k) then [Sleep(DelayArgument(k))] else [Press(k)]);
      PressedOfConcat(ReleasePhase(init), if IsDelay(k) then [] else [Release(k)]);
      var one := if IsDelay(k) then [Sleep(DelayArgument(k))] else [Press(k)];
      assert Pressed(one) == Pressed([] + one);
      assert Released(one) == Released([] + one);
    }
  }

  /** One section of `handle_keypress`: the names are translated, then the
      press loop and the release loop run over them. */
  method RunSection(section: seq<string>, isKey: string -> bool) returns (actions: seq<Action>)
    ensures var keys := seq(|section|, i requires 0 <= i < |section| => Translate(section[i], isKey));
            actions == PressPhase(keys) + ReleasePhase(keys)
  {
    var keys := seq(|section|, i requires 0 <= i < |section| => Translate(section[i], isKey));
    var presses := [];
    var i := 0;
    while i < |keys|
      invariant 0 <= i <= |keys|
      invariant presses == PressPhase(keys[..i])
    {
      var k := keys[i];
      assert keys[..i + 1][..i] == keys[..i];
      if IsDelay(k) {
        presses := presses + [Sleep(DelayArgument(k))];
      } else {
        presses := presses + [Press(k)];
      }
      i := i + 1;
    }
    var releases := [];
    i := 0;
    while i < |keys|
      invariant 0 <= i <= |keys|
      invariant releases == ReleasePhase(keys[..i])
    {
      var k := keys[i];
      assert keys[..i + 1][..i] == keys[..i];
      if !IsDelay(k) {
        releases := releases + [Release(k)];
      }
      i := i + 1;
    }
    assert keys[..|keys|] == keys;
    actions := presses + releases;
  }

  /** What `handle_keypress` does for a button, given the values stored for
      it. Nothing happens on release, nor on a press that woke the dimmed
      display. The keyboard actions (`keys` and `write`) need a usable
      keyboard library. A Home Assistant service is called when both the
      entity and the service are set. */
  datatype Reaction = Reaction(
    run: Option<string>,
    keys: seq<seq<string>>,
    write: Option<string>,
    brightnessChange: Option<int>,
    switchTo: Option<int>,
    hassCall: Option<(string, string)>)

  function HandleKeypress(pressed: bool, woke: bool, keyboard: bool, command: string, keys: string,
                          write: string, brightnessChange: int, switchPage: int, hassEntity: string, hassService: string)
    : (r: Option<Reaction>)
    ensures r.Some? <==> pressed && !woke
    ensures r.Some? ==> (r.value.run.Some? <==> command != "") && (r.value.run.Some? ==> r.value.run.value == command)
    ensures r.Some? ==> r.value.keys == if keyboard && keys != "" then ParseKeySpec(keys) else []
    ensures r.Some? ==> (r.value.write.Some? <==> keyboard && write != "") && (r.value.write.Some? ==> r.value.write.value == write)
    ensures r.Some? ==> (r.value.brightnessChange.Some? <==> brightnessChange != 0) &&
                        (r.value.brightnessChange.Some? ==> r.value.brightnessChange.value == brightnessChange)
    ensures r.Some? ==> r.value.switchTo == SwitchTarget(switchPage)
    ensures r.Some? ==> (r.value.hassCall.Some? <==> hassEntity != "" && hassService != "") &&
                        (r.value.hassCall.Some? ==> r.value.hassCall.value == (hassEntity, hassService))
  {
    if !pressed || woke then None
    else
      Some(Reaction(
        if command != "" then Some(command) else None,
        if keyboard && keys != "" then ParseKeySpec(keys) else [],
        if keyboard && write != "" then Some(write) else None,
        if brightnessChange != 0 then Some(brightnessChange) else None,
        SwitchTarget(switchPage),
        if hassEntity != "" && hassService != "" then Some((hassEntity, hassService)) else None))
  }

  /** A "switch page" value counts pages from 1, and 0 means no switch. */
  function SwitchTarget(switchPage: int): (r: Option<int>)
    ensures r.Some? <==> switchPage != 0
    ensures r.Some? ==> r.value + 1 == switchPage
  {
    if switchPage != 0 then Some(switchPage - 1) else None
  }

  /** The positions `align_text_vertical` cycles through, "" (the default,
      at the bottom) first. */
  const Positions: seq<string> := ["", "middle-bottom", "middle", "middle-top", "top"]

  /** `align_text_vertical`: the next position in the cycle; "bottom" counts
      as the default, and an unknown value goes back to the default. */
  function NextVerticalAlign(position: string): (r: string)
    ensures r in Positions
    ensures position !in Positions && position != "bottom" ==> r == ""
    ensures forall i {:trigger Positions[i]} :: 0 <= i < |Positions| && Positions[i] == position ==>
              r == Positions[(i + 1) % |Positions|]
    ensures position == "bottom" ==> r == Positions[1]
  {
    if position == "bottom" || position == "" then "middle-bottom"
    else if position == "middle-bottom" then "middle"
    else if position == "middle" then "middle-top"
    else if position == "middle-top" then "top"
    else ""
  }

  function AlignTimes(position: string, n: nat): string
    decreases n
  {
    if n == 0 then position else AlignTimes(NextVerticalAlign(position), n - 1)
  }

  /** The index after `i` in the cycle. */
  function Succ(i: nat): (j: nat)
    requires i < |Positions|
    ensures j < |Positions| && j == (i + 1) % |Positions|
  {
    if i == |Positions| - 1 then 0 else i + 1
  }

  /** Five clicks bring every position of the cycle back to itself. */
  lemma AlignCycle(i: nat)
    requires i < |Positions|
    ensures AlignTimes(Positions[i], 5) == Positions[i]
  {
    var i1 := Succ(i);
    var i2 := Succ(i1);
    var i3 := Succ(i2);
    var i4 := Succ(i3);
    assert Succ(i4) == i;
    assert NextVerticalAlign(Positions[i]) == Positions[i1];
    assert NextVerticalAlign(Positions[i1]) == Positions[i2];
    assert NextVerticalAlign(Positions[i2]) == Positions[i3];
    assert NextVerticalAlign(Positions[i3]) == Positions[i4];
    assert NextVerticalAlign(Positions[i4]) == Positions[i];
    assert AlignTimes(Positions[i4], 1) == Positions[i];
    assert AlignTimes(Positions[i3], 2) == Positions[i];
    assert AlignTimes(Positions[i2], 3) == Positions[i];
    assert AlignTimes(Positions[i1], 4) == Positions[i];
  }

  /** `streamdeck_cpu_changed`: the gauge shows at most 100. */
  function CapCpu(cpu: int): (r: int)
    ensures r <= 100
    ensures cpu <= 100 ==> r == cpu
    ensures cpu > 100 ==> r == 100
  {
    if cpu > 100 then 100 else cpu
  }

  /** `dimmer_options` as written: label -> timeout in seconds, in the order
      the settings dialog lists them. */
  const DimmerOptionsAsWritten: seq<(string, int)> :=
    [("Never", 0), ("10 Seconds", 10), ("1 Minute", 60), ("5 Minutes", 300), ("10 Minutes", 600),
     ("15 Minutes", 900), ("30 Minutes", 1800), ("1 Hour", 3600), ("5 Hours", 7200), ("10 Hours", 36000)]

  /** `dimmer_options` with "5 Hours" as five hours. */
  const DimmerOptions: seq<(string, int)> :=
    [("Never", 0), ("10 Seconds", 10), ("1 Minute", 60), ("5 Minutes", 300), ("10 Minutes", 600),
     ("15 Minutes", 900), ("30 Minutes", 1800), ("1 Hour", 3600), ("5 Hours", 18000), ("10 Hours", 36000)]

  /** Seconds per unit named in a label. */
  function UnitSeconds(unit: string): Option<int> {
    if unit == "Second" || unit == "Seconds" then Some(1)
    else if unit == "Minute" || unit == "Minutes" then Some(60)
    else if unit == "Hour" || unit == "Hours" then Some(3600)
    else None
  }

  /** The duration a label reads as: "Never" is 0, "<n> <unit>" is n units. */
  function LabelSeconds(caption: string): (r: Option<int>)
    ensures caption == "Never" ==> r == Some(0)
  {
    if caption == "Never" then Some(0)
    else
      var parts := Split(caption, ' ');
      if |parts| != 2 then None
      else
        var count := ParseInt(parts[0]);
        var unit := UnitSeconds(parts[1]);
        if count.Err? || unit.None? then None else Some(count.value * unit.value)
  }

  lemma LabelParts(count: nat, unit: string)
    requires ' ' !in unit
    ensures Split(NatToString(count) + " " + unit, ' ') == [NatToString(count), unit]
  {
    var digits := NatToString(count);
    assert ' ' !in digits by {
      forall i | 0 <= i < |digits| ensures digits[i] != ' ' {
        assert IsDigit(digits[i]);
      }
    }
    assert digits + " " + unit == digits + [' '] + unit;
    SplitOfPrefix(digits, ' ', unit);
    SplitOfPlain(unit, ' ');
  }

  /** A label "<count> <unit>" reads as `count` units. */
  lemma LabelReads(count: nat, unit: string, seconds: int)
    requires ' ' !in unit && UnitSeconds(unit) == Some(seconds)
    ensures LabelSeconds(NatToString(count) + " " + unit) == Some(count * seconds)
  {
    LabelParts(count, unit);
    ParseIntOfNatToString(count);
    var caption := NatToString(count) + " " + unit;
    assert caption != "Never" by {
      assert IsDigit(NatToString(count)[0]);
      assert caption[0] == NatToString(count)[0];
    }
  }

  lemma NatStrings()
    ensures NatToString(1) == "1" && NatToString(5) == "5"
    ensures NatToString(10) == "10" && NatToString(15) == "15" && NatToString(30) == "30"
  {
    var ten := NatToString(10);
    assert ten == NatToString(1) + [DigitChar(0)];
    var fifteen := NatToString(15);
    assert fifteen == NatToString(1) + [DigitChar(5)];
    var thirty := NatToString(30);
    assert thirty == NatToString(3) + [DigitChar(0)];
  }

  /** The entries of the corrected options, one by one. */
  lemma DimmerOptionsEntries()
    ensures |DimmerOptions| == 10 && DimmerOptions[0] == ("Never", 0)
    ensures DimmerOptions[1] == ("10 Seconds", 10) && DimmerOptions[2] == ("1 Minute", 60)
    ensures DimmerOptions[3] == ("5 Minutes", 300) && DimmerOptions[4] == ("10 Minutes", 600)
    ensures DimmerOptions[5] == ("15 Minutes", 900) && DimmerOptions[6] == ("30 Minutes", 1800)
    ensures DimmerOptions[7] == ("1 Hour", 3600) && DimmerOptions[8] == ("5 Hours", 18000)
    ensures DimmerOptions[9] == ("10 Hours", 36000)
  {
  }

  /** Each entry of the corrected options holds the number of seconds its
      label reads as ("Never", entry 0, reads as 0 by definition). The
      entries are checked three at a time. */
  lemma ShortOptionsMatchLabels()
    ensures LabelSeconds("10 Seconds") == Some(10)
    ensures LabelSeconds("1 Minute") == Some(60)
    ensures LabelSeconds("5 Minutes") == Some(300)
  {
    NatStrings();
    LabelReads(10, "Seconds", 1);
    assert NatToString(10) + " " + "Seconds" == "10 Seconds";
    LabelReads(1, "Minute", 60);
    assert NatToString(1) + " " + "Minute" == "1 Minute";
    LabelReads(5, "Minutes", 60);
    assert NatToString(5) + " " + "Minutes" == "5 Minutes";
  }

  lemma MinuteOptionsMatchLabels()
    ensures LabelSeconds("10 Minutes") == Some(600)
    ensures LabelSeconds("15 Minutes") == Some(900)
    ensures LabelSeconds("30 Minutes") == Some(1800)
  {
    NatStrings();
    LabelReads(10, "Minutes", 60);
    assert NatToString(10) + " " + "Minutes" == "10 Minutes";
    LabelReads(15, "Minutes", 60);
    assert NatToString(15) + " " + "Minutes" == "15 Minutes";
    LabelReads(30, "Minutes", 60);
    assert NatToString(30) + " " + "Minutes" == "30 Minutes";
  }

  lemma HourOptionsMatchLabels()
    ensures LabelSeconds("1 Hour") == Some(3600)
    ensures LabelSeconds("5 Hours") == Some(18000)
    ensures LabelSeconds("10 Hours") == Some(36000)
  {
    NatStrings();
    LabelReads(1, "Hour", 3600);
    assert NatToString(1) + " " + "Hour" == "1 Hour";
    LabelReads(5, "Hours", 3600);
    assert NatToString(5) + " " + "Hours" == "5 Hours";
    LabelReads(10, "Hours", 3600);
    assert NatToString(10) + " " + "Hours" == "10 Hours";
  }

  /** Every label of the corrected options reads as the seconds stored beside it. */
  lemma DimmerOptionsMatchLabels()
    ensures forall i :: 0 <= i < |DimmerOptions| ==> LabelSeconds(DimmerOptions[i].0) == Some(DimmerOptions[i].1)
  {
    DimmerOptionsEntries();
    ShortOptionsMatchLabels();
    MinuteOptionsMatchLabels();
    HourOptionsMatchLabels();
    forall i | 0 <= i < |DimmerOptions|
      ensures LabelSeconds(DimmerOptions[i].0) == Some(DimmerOptions[i].1)
    {
      var (caption, seconds) := DimmerOptions[i];
      if i == 0 { assert caption == "Never"; }
      else if i == 1 { assert caption == "10 Seconds" && seconds == 10; }
      else if i == 2 { assert caption == "1 Minute" && seconds == 60; }
      else if i == 3 { assert caption == "5 Minutes" && seconds == 300; }
      else if i == 4 { assert caption == "10 Minutes" && seconds == 600; }
      else if i == 5 { assert caption == "15 Minutes" && seconds == 900; }
      else if i == 6 { assert caption == "30 Minutes" && seconds == 1800; }
      else if i == 7 { assert caption == "1 Hour" && seconds == 3600; }
      else if i == 8 { assert caption == "5 Hours" && seconds == 18000; }
      else { assert caption == "10 Hours" && seconds == 36000; }
    }
  }

  /** As written, "5 Hours" stores 7200 seconds, which is two hours; every
      other entry agrees with the corrected table. */
  lemma FiveHoursAsWritten()
    ensures DimmerOptionsAsWritten[8] == ("5 Hours", 7200)
    ensures LabelSeconds("5 Hours") == Some(18000)
    ensures |DimmerOptionsAsWritten| == |DimmerOptions|
    ensures forall i :: 0 <= i < |DimmerOptions| && i != 8 ==> DimmerOptionsAsWritten[i] == DimmerOptions[i]
  {
    NatStrings();
    LabelReads(5, "Hours", 3600);
    assert NatToString(5) + " " + "Hours" == "5 Hours";
  }

  /** The first option whose value is `v` (the `next(...)` over
      `enumerate(dimmer_options.items())`). */
  function IndexOfValue(options: seq<(string, int)>, v: int): (r: Option<nat>)
    ensures r.Some? ==> r.value < |options| && options[r.value].1 == v
    ensures r.Some? ==> forall j :: 0 <= j < r.value ==> options[j].1 != v
    ensures r.None? ==> forall j :: 0 <= j < |options| ==> options[j].1 != v
    decreases |options|
  {
    if |options| == 0 then None
    else if options[0].1 == v then Some(0)
    else
      var rest := IndexOfValue(options[1..], v);
      if rest.None? then None else Some(rest.value + 1)
  }

  /** The label of the entry added for a timeout that is not an option. */
  function CustomLabel(timeout: int): (r: string)
    ensures StartsWith(r, "Custom: ")
  {
    "Custom: " + IntToString(timeout) + "s"
  }

  /** `show_settings` fills the timeout list with every option, then selects
      the first one whose value is the stored timeout; when there is none, a
      "Custom" entry for it is appended and selected. */
  method ShowSettings(options: seq<(string, int)>, timeout: int) returns (items: seq<(string, int)>, selected: nat)
    ensures selected < |items| && items[selected].1 == timeout
    ensures IndexOfValue(options, timeout).Some? ==> items == options && selected == IndexOfValue(options, timeout).value
    ensures IndexOfValue(options, timeout).None? ==> items == options + [(CustomLabel(timeout), timeout)] && selected == |options|
  {
    items := [];
    for i := 0 to |options|
      invariant items == options[..i]
    {
      items := items + [options[i]];
    }
    assert items == options;
    var existing := IndexOfValue(options, timeout);
    if existing.None? {
      items := items + [(CustomLabel(timeout), timeout)];
      selected := |items| - 1;
    } else {
      selected := existing.value;
    }
  }

  /** `dimmer_options.get(caption)`: the value of the label, where a later
      entry with the same label wins as in a dictionary display. */
  function Lookup(options: seq<(string, int)>, caption: string): (r: Option<int>)
    ensures r.Some? ==> exists i :: 0 <= i < |options| && options[i] == (caption, r.value) &&
                                    forall j :: i < j < |options| ==> options[j].0 != caption
    ensures r.None? <==> forall i :: 0 <= i < |options| ==> options[i].0 != caption
    decreases |options|
  {
    if |options| == 0 then None
    else
      var n := |options| - 1;
      if options[n].0 == caption then Some(options[n].1)
      else
        var r := Lookup(options[..n], caption);
        assert forall i :: 0 <= i < n ==> options[..n][i] == options[i];
        r
  }

  /** `disable_dim_settings`: the dimmed-brightness controls are disabled
      when the selected label is an option whose timeout is 0 ("Never"). */
  predicate DisableDim(options: seq<(string, int)>, caption: string) {
    Lookup(options, caption) == Some(0)
  }

  predicate UniqueLabels(options: seq<(string, int)>) {
    forall i, j :: 0 <= i < j < |options| ==> options[i].0 != options[j].0
  }

  /** With distinct labels, none of them a "Custom" one, the entry the
      settings dialog selects disables the dimmed-brightness controls exactly
      when the timeout is 0 and 0 is an option. */
  lemma SelectedDisablesDim(options: seq<(string, int)>, timeout: int, items: seq<(string, int)>, selected: nat)
    requires UniqueLabels(options)
    requires forall i :: 0 <= i < |options| ==> !StartsWith(options[i].0, "Custom: ")
    requires selected < |items| && items[selected].1 == timeout
    requires IndexOfValue(options, timeout).Some? ==> items == options && selected == IndexOfValue(options, timeout).value
    requires IndexOfValue(options, timeout).None? ==> items == options + [(CustomLabel(timeout), timeout)] && selected == |options|
    ensures DisableDim(options, items[selected].0) <==> timeout == 0 && IndexOfValue(options, 0).Some?
  {
    var caption := items[selected].0;
    if IndexOfValue(options, timeout).Some? {
      var r := Lookup(options, caption);
      assert options[selected].0 == caption;
      assert r.Some?;
      var i :| 0 <= i < |options| && options[i] == (caption, r.value);
      assert i == selected;
    } else {
      assert caption == CustomLabel(timeout);
      assert Lookup(options, caption).None?;
    }
  }

  /** The timeouts of the corrected options strictly increase. */
  lemma DimmerOptionsIncrease()
    ensures forall i, j :: 0 <= i < j < |DimmerOptions| ==> DimmerOptions[i].1 < DimmerOptions[j].1
  {
    DimmerOptionsEntries();
  }

  /** Distinct timeouts force distinct labels, since a label reads as its timeout. */
  lemma DimmerOptionsUniqueLabels()
    ensures UniqueLabels(DimmerOptions)
  {
    DimmerOptionsIncrease();
    DimmerOptionsMatchLabels();
    forall i, j | 0 <= i < j < |DimmerOptions| ensures DimmerOptions[i].0 != DimmerOptions[j].0 {
      if DimmerOptions[i].0 == DimmerOptions[j].0 {
        assert false;
      }
    }
  }

  /** No label of the corrected options starts with "Custom: ". */
  lemma DimmerOptionsNotCustom()
    ensures forall i :: 0 <= i < |DimmerOptions| ==> !StartsWith(DimmerOptions[i].0, "Custom: ")
  {
    DimmerOptionsEntries();
    forall i | 0 <= i < |DimmerOptions| ensures !StartsWith(DimmerOptions[i].0, "Custom: ") {
      var caption := DimmerOptions[i].0;
      if i == 0 { assert caption[0] == 'N'; }
      else if i < 7 { assert caption[0] == '1' || caption[0] == '3' || caption[0] == '5'; }
      else { assert caption[0] == '1' || caption[0] == '5'; }
    }
  }

  /** The corrected options have distinct labels and no "Custom" label, so
      the controls are disabled exactly when the stored timeout is 0. */
  lemma DimmerOptionsDisableIffNever(timeout: int, items: seq<(string, int)>, selected: nat)
    requires selected < |items| && items[selected].1 == timeout
    requires IndexOfValue(DimmerOptions, timeout).Some? ==> items == DimmerOptions && selected == IndexOfValue(DimmerOptions, timeout).value
    requires IndexOfValue(DimmerOptions, timeout).None? ==>
               items == DimmerOptions + [(CustomLabel(timeout), timeout)] && selected == |DimmerOptions|
    ensures DisableDim(DimmerOptions, items[selected].0) <==> timeout == 0
  {
    DimmerOptionsEntries();
    assert IndexOfValue(DimmerOptions, 0).Some?;
    DimmerOptionsUniqueLabels();
    DimmerOptionsNotCustom();
    SelectedDisablesDim(DimmerOptions, timeout, items, selected);
  }
}
