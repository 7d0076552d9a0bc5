# Winter scene: colour settings, snow and dunes

A model of the logic in `index.js` of a small page that draws a winter scene. The page paints a two-colour gradient sky, generates 200 falling snow flakes spread over four depth layers, and draws eight snow dunes as cubic Bézier paths. A settings form lets the user change the two sky colours and the snow colour. Those colours persist in `localStorage`.

The project has six modules:

- `Colors` (`colors.dfy`) covers `isValidHexColor`, modelled as a matcher for `^#[a-fA-F0-9]{6}$`, and `hexToRGB`, which turns the 24-bit value into three channels by shift and mask. Its partner is an encoder, `RGBToHex`, with round-trip lemmas in both directions.
- `Style` (`style.dfy`) covers `styleObjToString`. It is a loop that appends `k: v; ` for each entry of an ordered list of entries. The module also has the sky style that `updateSky` writes.
- `Draws` (`draws.dfy`) holds what every `Math.random()` call becomes: an injected draw `r` with `0 <= r < 1`, and the two facts about scaling a draw that the snow and dune ranges rest on.
- `Snow` (`snow.dfy`) covers the per-index flake descriptor of `makeSnow` and the loop that builds all of them.
- `Dunes` (`dunes.dfy`) does the same for `makeDunes`.
- `Settings` (`settings.dfy`) models the page as a class, `Settings.Page`:
  - its fields are the globals `currentSkyColor1`, `currentSkyColor2` and `currentSnowColor`, `localStorage` as a `map<string, string>`, a log of browser effects, and the flakes and dunes appended to the page;
  - its methods are `UpdateSky`, `SaveSettings`, `HandleSettingsSubmit`, `OnLoad`, and `AppendSnow` and `AppendDunes`, which append what `makeSnow` and `makeDunes` build;
  - each method's new state is stated through pure functions (`SaveSettingsSpec`, `SubmitField`, `SubmitUpTo`, `ResolveTheme`), and the lemmas are about those functions.

Where a plain reading of the scene differs from what the code does, the model follows the code:

- The free control point's height `y1` lies in `(-len/2, 0]`, not `[-len/2, 0)`. A draw in [0, 1) times `-len/2` gives this range.
- The snow drift lies in `[-10, 10)` and the vertical start in `(-500, 0]`, not closed ranges.
- Theme resolution on load does not validate stored values. Any non-empty stored string wins, for example `"blue"`.
- `saveSettings` does not update `currentSnowColor`. It only stores the new value, and the reload that follows picks it up.
- No generator checks a length range or a count. The counts and lengths are constants of the file, so no error path exists to model.

## Model

| member | source | states |
|---|---|---|
| Colors.MatchHexRun | index.js:28 | `[a-fA-F0-9]{n}$` matches `s` exactly when `s` is `n` characters and every one is a hex digit |
| Colors.IsValidHexColor | index.js:27-33 | true exactly when the string has length 7, starts with `#`, and positions 1 to 6 are hex digits of either case |
| Colors.ValidHexColorRejects | index.js:27-33 | any other length, any first character other than `#`, or a non-hex character after it makes the validator false |
| Colors.DigitValue | index.js:40 | the value of one hex digit is below 16 |
| Colors.HexValue | index.js:40 | the number `'0x' + digits` denotes is below 16 to the power of the digit count |
| Colors.ByteValue | index.js:41 | two hex digits denote a value below 256 |
| Colors.HexValueSix | index.js:40 | six digits denote byte1·2^16 + byte2·2^8 + byte3 |
| Colors.HexToRGBChannels | index.js:41 | `(v>>16)&255`, `(v>>8)&255` and `v&255` are the bytes written by digits 1-2, 3-4 and 5-6 |
| Colors.SplitBytes | index.js:41 | shifting a 24-bit value right by 16, 8 and 0 bits and masking with 255 recovers its three bytes |
| Colors.HexToRGB | index.js:39-42 | for a valid colour, three channels: the values of `RR`, `GG` and `BB`, each in [0,255] |
| Colors.HexToRGBExamples | index.js:39-42 | `#ff8000` gives [255,128,0] and `#000000` gives [0,0,0] |
| Colors.HexToRGBLetterCase | index.js:39-42 | `#ffffff` and `#FFfFff` both give [255,255,255]: letter case does not matter |
| Colors.RGBToHex | index.js:39-42 | inverse of hexToRGB, which has no counterpart in the source: three channels in [0,255] written as `#rrggbb`, accepted by the validator |
| Colors.ByteOfHexChars | index.js:40-41 | the two digits written for a channel in [0,255] denote that channel |
| Colors.DecodeEncode | index.js:39-42 | decoding an encoded channel triple gives the triple back |
| Colors.EncodeDecode | index.js:39-42 | re-encoding the decoded channels gives every digit of the colour back, up to letter case |
| Style.EntryText | index.js:21 | one entry's text is `k`, `: `, `v` and `; `, four characters longer than key and value together |
| Style.StyleObjToString | index.js:17-25 | the loop's result is the in-order concatenation of the entries' `k: v; ` texts |
| Style.SerializedAppend | index.js:20-22 | the text of two styles joined is the text of the first followed by the text of the second |
| Style.SerializedCons | index.js:20-22 | read from the front, the text is the first entry's text followed by the text of the rest |
| Style.SerializedAt | index.js:20-22 | entry `i`'s text stands between the texts of the entries before it and after it |
| Style.SerializedLength | index.js:17-25 | the text's length is the sum of the entries' text lengths, at least 4 per entry |
| Style.SerializedEmpty | index.js:17-25 | the text is `""` exactly when the style has no entries |
| Style.SkyStyleText | index.js:140-148 | the canvas style is `background: linear-gradient(0deg, c1 0%, c2 100%); ` |
| Snow.MakeFlake | index.js:51-69 | flake `idx` is in layer `idx % snowLayers`, and its curve is the second one exactly when the curve draw exceeds 0.5 |
| Snow.OpacityBound | index.js:65 | a draw divided by 3 and scaled by the layer factor `k = snowLayers - layer` lies in [0, k/3) |
| Snow.FlakeInRange | index.js:51-69 | with valid draws: duration in [layer+5, layer+7), opacity in [0,(4-layer)/3), x in [0,100), drift in [-10,10), size in [0,10), y in (-500,0] |
| Snow.InRangeExactly | index.js:51-69 | those ranges are exact: a flake lies in them exactly when some valid draws produce it |
| Snow.MakeSnow | index.js:50-79 | exactly `snowCount` flakes, flake `i` built from index `i` and its draws, all in range when the draws are valid |
| Snow.CountIsRoundRobin | index.js:53 | flakes whose layer is their index modulo `snowLayers` are counted per layer exactly as their indices are |
| Snow.RoundRobinCountRounds | index.js:53 | among the first `snowLayers·q` indices, exactly `q` fall in each layer |
| Snow.LayersEven | index.js:53 | round-robin layers: with `snowLayers·q` flakes, each layer holds exactly `q` |
| Snow.SnowFieldLayers | index.js:50-53 | each of the 4 layers of the 200 generated flakes holds 50 flakes |
| Dunes.BucketSize | index.js:86 | `viewboxWidth / duneCount` is 375 |
| Dunes.MakeDune | index.js:96-119 | even indices are right curves and odd ones left curves, and the fill is the snow colour passed in |
| Dunes.DuneInRange | index.js:96-118 | with valid draws: start x in [i·b, i·b+b/2), length in [300,1000), x1 in [0,len/2) for even i and [0,len) for odd i, y1 in (-len/2,0], second control point (400,0), end (len,0), start y 100 |
| Dunes.RebuiltFrom | index.js:96-118 | draws that scale each span back to a dune's own offsets rebuild exactly that dune |
| Dunes.InRangeExactly | index.js:96-118 | that shape is exact: a dune has it exactly when some valid draws produce it |
| Dunes.MakeDunes | index.js:88-122 | exactly `duneCount` dunes, dune `i` built from index `i` and its draws, all of that shape when the draws are valid |
| Dunes.StartsOrdered | index.js:93-97 | dunes of that shape start strictly left to right, and every start lies inside [0, viewboxWidth) |
| Settings.ResolveColor | index.js:204-206 | the resolved colour is the default or the stored value, and it is never empty when the default is not |
| Settings.ResolveTheme | index.js:203-206 | all three resolved colours are non-empty |
| Settings.ThemeIndependent | index.js:204-206 | each colour depends on its own key only: writing another key leaves it unchanged |
| Settings.ThemeUsesStored | index.js:204-206 | the default is used exactly when the key is missing or empty, or when the stored value equals the default |
| Settings.ThemeExamples | index.js:204-206 | empty storage gives the defaults `#090979`, `#020024` and `#ffffff`; `{skyGradient1: "#123456"}` changes only the first; an empty stored value gives the default; an unvalidated value wins |
| Settings.SaveSettingsFrame | index.js:185-200 | a truthy sky argument sets its global and its key; a truthy snow argument sets only the `snowColor` key; nothing else changes, and `currentSnowColor` never changes |
| Settings.SaveSettingsNothing | index.js:185-200 | null or empty arguments change nothing |
| Settings.SubmitFieldCases | index.js:166-179 | an empty field is skipped; an invalid non-empty field only alerts; a valid field 0 or 1 saves that field alone and repaints; a valid field 2 saves only the snow key and reloads |
| Settings.SubmitFieldState | index.js:166-179 | one field changes a sky global only when it is that valid sky field, never the snow global, and stores the field under its key exactly when it is valid |
| Settings.SubmitFieldEffects | index.js:166-179 | one field keeps the old effects and appends one effect exactly when it is non-empty, a reload exactly when it is a valid snow field |
| Settings.SubmitOutcome | index.js:160-183 | after a submission, each sky global is its field if that field is valid and unchanged otherwise; the snow global is unchanged; storage takes exactly the valid fields |
| Settings.SubmitEffects | index.js:165-180 | a submission keeps the old effects, adds one per non-empty field, and reloads exactly when the snow field is valid |
| Settings.ResolveSaved | index.js:204-206 | after a valid value is saved under a key, a load resolves that value there and resolves every other key as before |
| Settings.ResolveAfterSaves | index.js:171-206 | after the valid fields are saved under the three keys, a load resolves each saved field and the old colour for every key left alone |
| Settings.SubmitKeepsSkyInSync | index.js:171-198 | a submission keeps the sky globals equal to what a load would resolve from storage, and a valid snow field is what the next load resolves |
| Settings.Page.constructor | index.js:10-13 | before load the three globals are `""`, the storage is as persisted, and nothing is drawn |
| Settings.Page.UpdateSky | index.js:140-148 | appends a repaint whose style text is the serialised gradient of the two current sky colours |
| Settings.Page.SaveSettings | index.js:185-200 | the new globals and storage are `SaveSettingsSpec` of the old ones |
| Settings.Page.HandleSettingsSubmit | index.js:160-183 | the loop over the three fields leaves the state `SubmitUpTo` gives for all three fields |
| Settings.Page.AppendSnow | index.js:46-79 | appends `snowCount` flakes after the old ones, flake `i` built from index `i` and its draws |
| Settings.Page.AppendDunes | index.js:83-122 | appends `duneCount` dunes after the old ones, dune `i` built from index `i` and its draws and filled with the current snow colour |
| Settings.Page.OnLoad | index.js:203-212 | the globals become the resolved theme and storage is untouched; the sky is repainted; 200 flakes and 8 dunes filled with the snow colour are appended |

## Left out

- DOM plumbing is left out: `getElementById`, `createElement`/`createElementNS`, `setAttribute`, `appendChild`, `showSettings` and `hideSettings`. Flakes and dunes are kept as descriptor values appended to sequences.
- `alert` and `location.reload()` are recorded as effect tokens. The reload itself, which re-runs `window.onload`, is not modelled. `Settings.SubmitKeepsSkyInSync` states what that load would resolve.
- `Math.random()` is replaced by injected reals in [0, 1). The model uses exact real arithmetic, not IEEE doubles. Near the top of a range, float rounding could in principle reach an open bound that the model excludes.
- The number-to-text formatting of the style strings and path data is not modelled. Neither are the animation strings and the cubic-bezier coefficients. The curve is a two-valued choice.
- The colour channels in each flake's `rgba(...)` are not part of `Snow.Flake`. They come from `hexToRGB(currentSnowColor)`, and that value is not validated at load.
- HexToRGB: requires a valid colour. The source documents this precondition (index.js:35-37). JavaScript's coercion of a malformed `'0x' + str` into a number is not modelled.
- The writes of `saveSettings` to the undeclared globals `snowR`, `snowG` and `snowB` are not modelled. Nothing reads them.
- `viewboxHeight` is declared but unused, and it is not modelled.
