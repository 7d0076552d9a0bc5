/** The page's colour state: the three `current*` globals, the persisted
    settings in `localStorage`, the load-time theme resolution, `saveSettings`
    and the per-field dispatch of `handleSettingsSubmit`. Browser side effects
    (repainting the sky, `alert`, `location.reload()`) are recorded, in order,
    as effect tokens. */
module Settings {
  import opened Colors
  import opened Style
  import Snow
  import Dunes

  datatype Option<T> = None | Some(value: T)

  /** JavaScript truthiness of a string argument that may be `null`. */
  predicate Truthy(a: Option<string>) {
    a.Some? && a.value != ""
  }

  const SkyKey1: string := "skyGradient1"
  const SkyKey2: string := "skyGradient2"
  const SnowKey: string := "snowColor"

  const DefaultSkyColor1: string := "#090979"
  const DefaultSkyColor2: string := "#020024"
  const DefaultSnowColor: string := "#ffffff"

  /** What the page did to the browser: `updateSky` wrote this style text on
      the canvas, `location.reload()` was called, or `alert` showed this text. */
  datatype Effect = Repaint(style: string) | Reload | Alert(message: string)

  /** The repaint `updateSky` performs for a pair of sky colours. */
  function SkyRepaint(sky1: string, sky2: string): Effect {
    Repaint(Serialized(SkyStyle(sky1, sky2)))
  }

  /** The text of the alert for a rejected field value. */
  function AlertText(elem: string): string {
    elem + " is not a valid color! Format like this: #ffffff"
  }

  /** The state the settings code reads and writes. */
  datatype PageState = PageState(sky1: string, sky2: string, snow: string,
                                 storage: map<string, string>, effects: seq<Effect>)

  /** Reading `window.localStorage[key]` with a fallback: a missing key or an
      empty string is falsy, so the default is used; nothing is validated. */
  function ResolveColor(storage: map<string, string>, key: string, default: string): (c: string)
    ensures c == default || (key in storage && c == storage[key])
    ensures default != "" ==> c != ""
  {
    if key in storage && storage[key] != "" then storage[key] else default
  }

  /** The three colours `window.onload` resolves. */
  datatype Theme = Theme(sky1: string, sky2: string, snow: string)

  function ResolveTheme(storage: map<string, string>): (t: Theme)
    ensures t.sky1 != "" && t.sky2 != "" && t.snow != ""
  {
    Theme(ResolveColor(storage, SkyKey1, DefaultSkyColor1),
          ResolveColor(storage, SkyKey2, DefaultSkyColor2),
          ResolveColor(storage, SnowKey, DefaultSnowColor))
  }

  /** Each colour is resolved from its own key alone: writing any other key
      leaves it as it was. */
  lemma ThemeIndependent(storage: map<string, string>, key: string, v: string)
    ensures key != SkyKey1 ==> ResolveTheme(storage[key := v]).sky1 == ResolveTheme(storage).sky1
    ensures key != SkyKey2 ==> ResolveTheme(storage[key := v]).sky2 == ResolveTheme(storage).sky2
    ensures key != SnowKey ==> ResolveTheme(storage[key := v]).snow == ResolveTheme(storage).snow
  {
  }

  /** A stored value wins exactly when it is non-empty. */
  lemma ThemeUsesStored(storage: map<string, string>, key: string, default: string)
    ensures ResolveColor(storage, key, default) == default <==>
              (key !in storage || storage[key] == "" || storage[key] == default)
  {
  }

  lemma ThemeExamples()
    ensures ResolveTheme(map[]) == Theme("#090979", "#020024", "#ffffff")
    ensures ResolveTheme(map[SkyKey1 := "#123456"]) == Theme("#123456", "#020024", "#ffffff")
    ensures ResolveTheme(map[SnowKey := ""]).snow == "#ffffff"
    ensures ResolveTheme(map[SkyKey2 := "blue"]).sky2 == "blue"
  {
  }

  /** `saveSettings(skyGradient1, skyGradient2, snowColor)`: a truthy sky
      colour updates its `current*` global and its storage key; a truthy snow
      colour only its storage key. */
  function SaveSettingsSpec(s: PageState, skyGradient1: Option<string>,
                            skyGradient2: Option<string>, snowColor: Option<string>): PageState
  {
    var s1 := if Truthy(skyGradient1)
              then s.(sky1 := skyGradient1.value, storage := s.storage[SkyKey1 := skyGradient1.value])
              else s;
    var s2 := if Truthy(skyGradient2)
              then s1.(sky2 := skyGradient2.value, storage := s1.storage[SkyKey2 := skyGradient2.value])
              else s1;
    if Truthy(snowColor) then s2.(storage := s2.storage[SnowKey := snowColor.value]) else s2
  }

  lemma KeysDistinct()
    ensures SkyKey1 != SkyKey2 && SkyKey1 != SnowKey && SkyKey2 != SnowKey
  {
  }

  /** `saveSettings` changes only what it was passed: the snow global and the
      effects never, a sky global only for a truthy argument, and the storage
      only at the keys of truthy arguments. */
  lemma SaveSettingsFrame(s: PageState, a1: Option<string>, a2: Option<string>, a3: Option<string>)
    ensures var r := SaveSettingsSpec(s, a1, a2, a3);
      && r.sky1 == (if Truthy(a1) then a1.value else s.sky1)
      && r.sky2 == (if Truthy(a2) then a2.value else s.sky2)
      && r.snow == s.snow
      && r.effects == s.effects
      && (forall k :: k in r.storage <==>
            k in s.storage || (k == SkyKey1 && Truthy(a1)) || (k == SkyKey2 && Truthy(a2)) || (k == SnowKey && Truthy(a3)))
      && (forall k :: k in r.storage ==>
            r.storage[k] == (if k == SkyKey1 && Truthy(a1) then a1.value
                             else if k == SkyKey2 && Truthy(a2) then a2.value
                             else if k == SnowKey && Truthy(a3) then a3.value
                             else s.storage[k]))
  {
  }

  /** With no truthy argument `saveSettings` changes nothing. */
  lemma SaveSettingsNothing(s: PageState, a1: Option<string>, a2: Option<string>, a3: Option<string>)
    requires !Truthy(a1) && !Truthy(a2) && !Truthy(a3)
    ensures SaveSettingsSpec(s, a1, a2, a3) == s
  {
  }

  /** The storage key of form field `idx`. */
  function FieldKey(idx: nat): string
    requires idx < 3
  {
    [SkyKey1, SkyKey2, SnowKey][idx]
  }

  /** The body of the `handleSettingsSubmit` loop for field `idx` with value
      `elem`: skip an empty field; alert on an invalid one; otherwise save it
      alone, then repaint the sky (fields 0 and 1) or reload (field 2). */
  function SubmitField(s: PageState, idx: nat, elem: string): PageState
    requires idx < 3
  {
    if elem == "" then s
    else if IsValidHexColor(elem) then
      var settings := [None, None, None][idx := Some(elem)];
      var saved := SaveSettingsSpec(s, settings[0], settings[1], settings[2]);
      if idx < 2 then saved.(effects := saved.effects + [SkyRepaint(saved.sky1, saved.sky2)])
      else saved.(effects := saved.effects + [Reload])
    else s.(effects := s.effects + [Alert(AlertText(elem))])
  }

  /** The four cases of one field. */
  lemma SubmitFieldCases(s: PageState, idx: nat, elem: string)
    requires idx < 3
    ensures elem == "" ==> SubmitField(s, idx, elem) == s
    ensures elem != "" && !IsValidHexColor(elem) ==>
              SubmitField(s, idx, elem) == s.(effects := s.effects + [Alert(AlertText(elem))])
    ensures IsValidHexColor(elem) && idx == 0 ==>
              SubmitField(s, idx, elem) == s.(sky1 := elem, storage := s.storage[SkyKey1 := elem],
                                              effects := s.effects + [SkyRepaint(elem, s.sky2)])
    ensures IsValidHexColor(elem) && idx == 1 ==>
              SubmitField(s, idx, elem) == s.(sky2 := elem, storage := s.storage[SkyKey2 := elem],
                                              effects := s.effects + [SkyRepaint(s.sky1, elem)])
    ensures IsValidHexColor(elem) && idx == 2 ==>
              SubmitField(s, idx, elem) == s.(storage := s.storage[SnowKey := elem],
                                              effects := s.effects + [Reload])
  {
  }

  /** The first `n` iterations of the `handleSettingsSubmit` loop over the
      three field values. */
  function SubmitUpTo(s: PageState, fields: seq<string>, n: nat): PageState
    requires |fields| == 3 && n <= 3
  {
    if n == 0 then s else SubmitField(SubmitUpTo(s, fields, n - 1), n - 1, fields[n - 1])
  }

  /** The storage after saving `v` under `key` when it is a valid colour. */
  function SaveIfValid(storage: map<string, string>, key: string, v: string): map<string, string> {
    if IsValidHexColor(v) then storage[key := v] else storage
  }

  /** How many of the field values are non-empty. */
  function NonEmptyCount(fields: seq<string>): nat {
    if fields == [] then 0
    else NonEmptyCount(fields[..|fields| - 1]) + (if fields[|fields| - 1] != "" then 1 else 0)
  }

  /** One field's iteration, summarised: what it does to each global and to
      the storage. */
  lemma SubmitFieldState(s: PageState, idx: nat, elem: string)
    requires idx < 3
    ensures var r := SubmitField(s, idx, elem);
      && r.sky1 == (if IsValidHexColor(elem) && idx == 0 then elem else s.sky1)
      && r.sky2 == (if IsValidHexColor(elem) && idx == 1 then elem else s.sky2)
      && r.snow == s.snow
      && r.storage == SaveIfValid(s.storage, FieldKey(idx), elem)
  {
  }

  /** One field's iteration appends one effect when the field is non-empty
      (a reload exactly for a valid snow field) and none otherwise. */
  lemma SubmitFieldEffects(s: PageState, idx: nat, elem: string)
    requires idx < 3
    ensures var r := SubmitField(s, idx, elem);
      && |r.effects| == |s.effects| + (if elem != "" then 1 else 0)
      && r.effects[..|s.effects|] == s.effects
      && (Reload in r.effects[|s.effects|..] <==> IsValidHexColor(elem) && idx == 2)
  {
  }

  /** A whole submission: each sky global ends as its field when that field
      is a valid colour and is kept otherwise; the snow global never changes;
      the storage takes exactly the valid fields. */
  lemma {:induction false} SubmitOutcome(s: PageState, fields: seq<string>)
    requires |fields| == 3
    ensures var r := SubmitUpTo(s, fields, 3);
      && r.sky1 == (if IsValidHexColor(fields[0]) then fields[0] else s.sky1)
      && r.sky2 == (if IsValidHexColor(fields[1]) then fields[1] else s.sky2)
      && r.snow == s.snow
      && r.storage == SaveIfValid(SaveIfValid(SaveIfValid(s.storage, SkyKey1, fields[0]), SkyKey2, fields[1]), SnowKey, fields[2])
  {
    var s1 := SubmitUpTo(s, fields, 1);
    var s2 := SubmitUpTo(s, fields, 2);
    assert SubmitUpTo(s, fields, 0) == s;
    SubmitFieldState(s, 0, fields[0]);
    SubmitFieldState(s1, 1, fields[1]);
    SubmitFieldState(s2, 2, fields[2]);
  }

  /** The effects of a whole submission: one per non-empty field, after the
      old ones, with a reload among them exactly when the snow field is valid. */
  lemma {:induction false} SubmitEffects(s: PageState, fields: seq<string>)
    requires |fields| == 3
    ensures var r := SubmitUpTo(s, fields, 3);
      && |r.effects| == |s.effects| + NonEmptyCount(fields)
      && r.effects[..|s.effects|] == s.effects
      && (Reload in r.effects[|s.effects|..] <==> IsValidHexColor(fields[2]))
  {
    var s1 := SubmitUpTo(s, fields, 1);
    var s2 := SubmitUpTo(s, fields, 2);
    var r := SubmitUpTo(s, fields, 3);
    assert SubmitUpTo(s, fields, 0) == s;
    SubmitFieldEffects(s, 0, fields[0]);
    SubmitFieldEffects(s1, 1, fields[1]);
    SubmitFieldEffects(s2, 2, fields[2]);
    assert fields[..3] == fields && fields[..2][..1] == fields[..1] && fields[..1][..0] == [];
    assert NonEmptyCount(fields[..1]) == (if fields[0] != "" then 1 else 0);
    ChainedLogs(s.effects, s1.effects, s2.effects, r.effects);
    var added := r.effects[|s.effects|..];
    assert Reload in added <==>
      Reload in s1.effects[|s.effects|..] || Reload in s2.effects[|s1.effects|..] || Reload in r.effects[|s2.effects|..];
  }

  /** Three successive extensions of a log: the final log keeps the first
      and adds the three extensions in order. */
  lemma ChainedLogs(e0: seq<Effect>, e1: seq<Effect>, e2: seq<Effect>, e3: seq<Effect>)
    requires |e0| <= |e1| <= |e2| <= |e3|
    requires e1[..|e0|] == e0 && e2[..|e1|] == e1 && e3[..|e2|] == e2
    ensures e3[..|e0|] == e0
    ensures e3[|e0|..] == e1[|e0|..] + e2[|e1|..] + e3[|e2|..]
  {
  }

  /** The sky globals agree with what a load would resolve from the storage. */
  predicate SkyInSync(s: PageState) {
    s.sky1 == ResolveTheme(s.storage).sky1 && s.sky2 == ResolveTheme(s.storage).sky2
  }

  /** A submission keeps the sky globals in step with the storage, so a
      repaint shows what a reload would. The snow global is not kept in step:
      a valid snow field is stored, and only the reload that follows makes the
      page resolve it. */
  lemma SubmitKeepsSkyInSync(s: PageState, fields: seq<string>)
    requires |fields| == 3 && SkyInSync(s)
    ensures SkyInSync(SubmitUpTo(s, fields, 3))
    ensures IsValidHexColor(fields[2]) ==> ResolveTheme(SubmitUpTo(s, fields, 3).storage).snow == fields[2]
  {
    SubmitOutcome(s, fields);
    ResolveAfterSaves(s.storage, fields[0], fields[1], fields[2]);
  }

  /** What a load resolves after valid values were saved under the three
      keys: each saved value, and the old resolution for a key left alone. */
  lemma {:induction false} ResolveAfterSaves(storage: map<string, string>, a: string, b: string, c: string)
    ensures var t := ResolveTheme(SaveIfValid(SaveIfValid(SaveIfValid(storage, SkyKey1, a), SkyKey2, b), SnowKey, c));
      && t.sky1 == (if IsValidHexColor(a) then a else ResolveTheme(storage).sky1)
      && t.sky2 == (if IsValidHexColor(b) then b else ResolveTheme(storage).sky2)
      && t.snow == (if IsValidHexColor(c) then c else ResolveTheme(storage).snow)
  {
    KeysDistinct();
    var s1 := SaveIfValid(storage, SkyKey1, a);
    var s2 := SaveIfValid(s1, SkyKey2, b);
    ResolveSaved(storage, SkyKey1, a, SkyKey1, DefaultSkyColor1);
    ResolveSaved(s1, SkyKey2, b, SkyKey1, DefaultSkyColor1);
    ResolveSaved(s2, SnowKey, c, SkyKey1, DefaultSkyColor1);
    ResolveSaved(storage, SkyKey1, a, SkyKey2, DefaultSkyColor2);
    ResolveSaved(s1, SkyKey2, b, SkyKey2, DefaultSkyColor2);
    ResolveSaved(s2, SnowKey, c, SkyKey2, DefaultSkyColor2);
    ResolveSaved(storage, SkyKey1, a, SnowKey, DefaultSnowColor);
    ResolveSaved(s1, SkyKey2, b, SnowKey, DefaultSnowColor);
    ResolveSaved(s2, SnowKey, c, SnowKey, DefaultSnowColor);
  }

  /** Saving a valid value under `key` makes a load resolve it there and
      changes nothing a load resolves under any other key. */
  lemma ResolveSaved(storage: map<string, string>, key: string, v: string, other: string, default: string)
    ensures ResolveColor(SaveIfValid(storage, key, v), other, default)
      == (if key == other && IsValidHexColor(v) then v else ResolveColor(storage, other, default))
  {
  }

  /** Appending keeps the old elements and puts the new ones after them. */
  lemma Appended<T>(a: seq<T>, b: seq<T>)
    ensures |a + b| == |a| + |b| && (a + b)[..|a|] == a
    ensures forall i :: 0 <= i < |b| ==> (a + b)[|a| + i] == b[i]
  {
  }

  /** The page: the globals `currentSkyColor1`, `currentSkyColor2` and
      `currentSnowColor`, the `localStorage` map, the effects issued so far,
      and the children appended to the `#canvas` and `#dunes` containers. */
  class Page {
    var currentSkyColor1: string
    var currentSkyColor2: string
    var currentSnowColor: string
    var localStorage: map<string, string>
    var effects: seq<Effect>
    var flakes: seq<Snow.Flake>
    var dunes: seq<Dunes.Dune>

    function State(): PageState
      reads this
    {
      PageState(currentSkyColor1, currentSkyColor2, currentSnowColor, localStorage, effects)
    }

    /** The page as the script finds it: the globals empty, the storage as
        persisted, nothing drawn. */
    constructor (storage: map<string, string>)
      ensures State() == PageState("", "", "", storage, [])
      ensures flakes == [] && dunes == []
    {
      currentSkyColor1, currentSkyColor2, currentSnowColor := "", "", "";
      localStorage := storage;
      effects := [];
      flakes, dunes := [], [];
    }

    /** `updateSky`: write the gradient style on the canvas. */
    method UpdateSky()
      modifies this`effects
      ensures effects == old(effects) + [SkyRepaint(currentSkyColor1, currentSkyColor2)]
    {
      var style := StyleObjToString(SkyStyle(currentSkyColor1, currentSkyColor2));
      effects := effects + [Repaint(style)];
    }

    /** `saveSettings`. The source also decodes a truthy snow colour into
        three undeclared globals that nothing reads; that write is not part
        of the state. */
    method SaveSettings(skyGradient1: Option<string>, skyGradient2: Option<string>, snowColor: Option<string>)
      modifies this`currentSkyColor1, this`currentSkyColor2, this`localStorage
      ensures State() == SaveSettingsSpec(old(State()), skyGradient1, skyGradient2, snowColor)
    {
      if Truthy(skyGradient1) {
        currentSkyColor1 := skyGradient1.value;
        localStorage := localStorage[SkyKey1 := skyGradient1.value];
      }
      if Truthy(skyGradient2) {
        currentSkyColor2 := skyGradient2.value;
        localStorage := localStorage[SkyKey2 := skyGradient2.value];
      }
      if Truthy(snowColor) {
        localStorage := localStorage[SnowKey := snowColor.value];
      }
    }

    /** `handleSettingsSubmit` with the three input values, in form order. */
    method HandleSettingsSubmit(skyGradient1: string, skyGradient2: string, snowColor: string)
      modifies this`currentSkyColor1, this`currentSkyColor2, this`localStorage, this`effects
      ensures State() == SubmitUpTo(old(State()), [skyGradient1, skyGradient2, snowColor], 3)
    {
      var fields := [skyGradient1, skyGradient2, snowColor];
      for idx := 0 to 3
        invariant State() == SubmitUpTo(old(State()), fields, idx)
      {
        var elem := fields[idx];
        if elem != "" {
          if IsValidHexColor(elem) {
            var settingsArr := [None, None, None][idx := Some(elem)];
            SaveSettings(settingsArr[0], settingsArr[1], settingsArr[2]);
            if idx < 2 {
              UpdateSky();
            } else {
              effects := effects + [Reload];
            }
          } else {
            effects := effects + [Alert(AlertText(elem))];
          }
        }
      }
    }

    /** `window.onload`: resolve the theme from storage, paint the sky, then
        append the snow flakes and the dunes (filled with the snow colour). */
    method OnLoad(snowDraws: seq<Snow.FlakeDraws>, duneDraws: seq<Dunes.DuneDraws>)
      requires |snowDraws| == Snow.SnowCount && |duneDraws| == Dunes.DuneCount
      modifies this
      ensures Theme(currentSkyColor1, currentSkyColor2, currentSnowColor) == ResolveTheme(localStorage)
      ensures localStorage == old(localStorage)
      ensures effects == old(effects) + [SkyRepaint(currentSkyColor1, currentSkyColor2)]
      ensures |flakes| == |old(flakes)| + Snow.SnowCount && flakes[..|old(flakes)|] == old(flakes)
      ensures forall i :: 0 <= i < Snow.SnowCount ==>
                flakes[|old(flakes)| + i] == Snow.MakeFlake(i, snowDraws[i])
      ensures |dunes| == |old(dunes)| + Dunes.DuneCount && dunes[..|old(dunes)|] == old(dunes)
      ensures forall i :: 0 <= i < Dunes.DuneCount ==>
                dunes[|old(dunes)| + i] == Dunes.MakeDune(i, currentSnowColor, duneDraws[i])
    {
      currentSkyColor1 := ResolveColor(localStorage, SkyKey1, DefaultSkyColor1);
      currentSkyColor2 := ResolveColor(localStorage, SkyKey2, DefaultSkyColor2);
      currentSnowColor := ResolveColor(localStorage, SnowKey, DefaultSnowColor);
      UpdateSky();
      AppendSnow(snowDraws);
      AppendDunes(duneDraws);
    }

    /** `makeSnow`: build the flakes and append them to the canvas. */
    method AppendSnow(snowDraws: seq<Snow.FlakeDraws>)
      requires |snowDraws| == Snow.SnowCount
      modifies this`flakes
      ensures |flakes| == |old(flakes)| + Snow.SnowCount && flakes[..|old(flakes)|] == old(flakes)
      ensures forall i :: 0 <= i < Snow.SnowCount ==>
                flakes[|old(flakes)| + i] == Snow.MakeFlake(i, snowDraws[i])
    {
      var newFlakes := Snow.MakeSnow(snowDraws);
      Appended(flakes, newFlakes);
      flakes := flakes + newFlakes;
    }

    /** `makeDunes`: build the dunes, filled with the current snow colour,
        and append them to the dunes container. */
    method AppendDunes(duneDraws: seq<Dunes.DuneDraws>)
      requires |duneDraws| == Dunes.DuneCount
      modifies this`dunes
      ensures |dunes| == |old(dunes)| + Dunes.DuneCount && dunes[..|old(dunes)|] == old(dunes)
      ensures forall i :: 0 <= i < Dunes.DuneCount ==>
                dunes[|old(dunes)| + i] == Dunes.MakeDune(i, currentSnowColor, duneDraws[i])
    {
      var newDunes := Dunes.MakeDunes(currentSnowColor, duneDraws);
      Appended(dunes, newDunes);
      dunes := dunes + newDunes;
    }
  }
}
