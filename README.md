# Text-to-speech controller, modelled in Dafny

This project models the browser-side controller of the OpenLab Text-to-Speech WordPress
plugin (`assets/src/frontend.js`). The controller reads a post aloud with the browser's speech
engine. The model covers five parts of it.

- **Voice catalog.** It holds the voices the engine reports. It also holds the set of their
  language tags, which keeps insertion order and stores each tag once (module `Voices`).
- **Default language.** `getDefaultLanguage` tries three spellings of the browser locale in
  turn (module `LanguageResolver`): the locale itself, `code_COUNTRY`, and a prefix made from
  the alpha-3 language and country codes.
- **Selectors.** Each control has a language `<select>` and a voice `<select>`, modelled as
  option lists. The model covers the language-option loop of `initButton`, `populateVoices`,
  which refills the voice list for the selected language, and `getSelectedVoice`, which finds
  the first voice matching both selectors (module `Controls`).
- **Playback.** `isPlaying` and `hasStarted` are two flags shared by every control on the page.
  Only the engine's `start`, `end`, `pause` and `resume` callbacks change them. A click only
  issues a command (`speak`, `pause` or `cancel`) and rewrites its own button's label
  (modules `Playback` and `Controls`).
- **Capability probe.** `browserSupports` always answers false, so a click never pauses. A click
  while playing cancels. A click after a `pause` callback also cancels; it neither resumes nor
  speaks again.

Files: `wrappers.dfy` (Option), `strings.dfy` (split, join, template rendering),
`voices.dfy`, `language_resolver.dfy`, `playback.dfy` and `controls.dfy`.

Modelling choices:
- A JavaScript `Set` is a `seq<string>` with no repeated tag. Adding a tag that is already
  present keeps it in its place, so `Array.from(set)` is the sequence itself.
- `select.value` follows the DOM rule for a single-choice select. The value comes from the
  option marked selected last. If no option is marked, it comes from the first option. With no
  options it is "". The server renders each select with one placeholder option
  (src/App.php:126-138). The `Control` constructor therefore takes the initial option lists.
- The language selector's `change` event is modelled as firing when a pick changes the
  selector's value. The language options carry distinct values (the placeholder "" and the set's
  tags), so a pick that changes the selected option also changes the value.
- A locale without a country part ('en') has an absent country (`Option.None`). A template
  literal renders an absent value as the text "undefined", as JavaScript does. So the second
  candidate for 'en' is 'en_undefined'.
- The language and country lookup libraries are function-typed parameters that may return
  nothing.
- Button labels are symbolic keys (`PlayAudio`, `StopAudio`, ...). They are not looked-up text.
  The localized strings define no `stopAudio` (src/App.php:74-78).

## Model

| member | source | states |
|---|---|---|
| `Strings.Split` | assets/src/frontend.js:97 | `split('-')` always yields at least one part, no part contains the separator, and there is more than one part iff the input contains the separator |
| `Strings.JoinSplit` | assets/src/frontend.js:97 | splitting loses nothing: joining the parts with '-' gives back the locale |
| `Strings.SplitHead` | assets/src/frontend.js:97-98 | the first part is a prefix of the locale that stops at the first '-'; with no '-' the locale is the only part |
| `Strings.Show` | assets/src/frontend.js:103 | a template literal renders a present value as itself and an absent value as the text "undefined" |
| `Strings.SplitAtSeparator` | assets/src/frontend.js:97-99 | in `a-b`, where `a` has no '-', the first part is `a` and the other parts are those of `b` |
| `Voices.SetAdd` | assets/src/frontend.js:174 | `Set.add` keeps the existing tags in place and first, adds at most one tag, makes the tag present, and never creates a duplicate |
| `Voices.AddAll` | assets/src/frontend.js:173-175 | adding the voices' tags keeps the existing tags in place and first; afterwards a tag is present iff it was present before or belongs to a reported voice; no tag ends up twice |
| `Voices.AddAllSnoc` | assets/src/frontend.js:173-175 | the `forEach` adds one tag per voice: adding one more tag is one more `Set.add` |
| `Voices.AddAllIdempotent` | assets/src/frontend.js:173-175 | reporting the same voices again adds no tag |
| `Voices.AddAllAbsorbs` | assets/src/frontend.js:173-175 | adding tags that are all present leaves the set unchanged |
| `Voices.Langs` | assets/src/frontend.js:173-175 | one tag per voice, in report order: the `lang` of each voice |
| `Voices.LanguagesOfFreshCatalog` | assets/src/frontend.js:169-176 | after `initVoices` on a fresh page, the language set holds exactly the reported voices' tags, each once |
| `Voices.Catalog.constructor` | assets/src/frontend.js:7-8 | before the engine reports, there are no voices and no languages |
| `Voices.Catalog.InitVoices` | assets/src/frontend.js:169-176 | stores the reported voices as they are; the language set becomes the old set with the reported tags added in order; no tag repeats |
| `Voices.VoicesFor` | assets/src/frontend.js:181 | every voice the filter keeps is a catalog voice of the selected language, and the result is no longer than the catalog |
| `Voices.VoicesForCounts` | assets/src/frontend.js:181 | the filter keeps exactly the voices of the selected language, each as often as the catalog has it |
| `Voices.VoicesForAppend` | assets/src/frontend.js:181 | the filter keeps catalog order: filtering a concatenation gives the filtered parts, concatenated |
| `Voices.VoicesForIdempotent` | assets/src/frontend.js:181 | filtering the filtered list again changes nothing |
| `Voices.FirstMatch` | assets/src/frontend.js:202 | the index of the first voice whose `lang` and `name` both match, or the length of the list when none matches |
| `Voices.FindVoice` | assets/src/frontend.js:202 | `find` returns nothing iff no voice matches both values; otherwise it returns the voice at the first matching index |
| `LanguageResolver.LangCode` | assets/src/frontend.js:97-98 | the language code is a prefix of the locale without '-', and when the locale has a '-' the code ends right before the first one |
| `LanguageResolver.CountryCode` | assets/src/frontend.js:97-99 | the country part is absent iff the locale has no '-'; when present it contains no '-' |
| `LanguageResolver.UnderscoreForm` | assets/src/frontend.js:103 | the second candidate starts with the language code and '_'; for a locale with '-' it is the code, '_' and the country part |
| `LanguageResolver.AlphaThreeForm` | assets/src/frontend.js:110-113 | the third candidate starts with the alpha-3 lookup of the language code and '-'; for a locale without '-' the country lookup receives an absent value |
| `LanguageResolver.LocaleWithCountry` | assets/src/frontend.js:97-113 | for a locale 'code-rest' (code without '-'), the code is `code`, the country is the first part of `rest`, the second candidate is `code_country`, and the third candidate is built from the lookups of both |
| `LanguageResolver.FirstPrefixed` | assets/src/frontend.js:116 | the index of the first tag (insertion order) that starts with the alpha-3 prefix, or the length of the list when none does |
| `LanguageResolver.FindPrefixed` | assets/src/frontend.js:116 | the `find` over the set returns nothing iff no tag has the prefix; otherwise it returns the first tag that has it |
| `LanguageResolver.DefaultLanguage` | assets/src/frontend.js:90-120 | the default language is either absent or a member of the language set; it is never a tag the catalog lacks |
| `LanguageResolver.DefaultLanguageChain` | assets/src/frontend.js:93-119 | the three candidates are tried in order and the first hit wins: the exact locale, then `code_COUNTRY`, then the first tag starting with `alpha3T(code)-alpha3(country)` |
| `LanguageResolver.DefaultLanguageNone` | assets/src/frontend.js:90-120 | the result is undefined iff all three candidates miss |
| `LanguageResolver.UnderscoreFormWithoutCountry` | assets/src/frontend.js:97-106 | a locale without '-' has no country part, and its second candidate is `<locale>_undefined` |
| `LanguageResolver.FirefoxAndroidExample` | assets/src/frontend.js:108-119 | whenever the lookups map 'en' to 'eng' and 'US' to 'USA', 'en-US' selects 'eng-USA-default' and skips 'eng-GBR-default' |
| `Playback.Step` | assets/src/frontend.js:142-155 | `start` sets both flags; `end` clears both; `pause` clears only `isPlaying`; `resume` sets only `isPlaying` |
| `Playback.HasStartedTracksTrace` | assets/src/frontend.js:142-155 | from page load, `hasStarted` is true iff the latest `start`/`end` callback was `start` |
| `Playback.CallbacksKeepInvariant` | assets/src/frontend.js:142-155 | if every `resume` arrives after a `start` with no `end` in between, then `isPlaying` implies `hasStarted` |
| `Playback.ResumeBeforeStartBreaksInvariant` | assets/src/frontend.js:149-151 | a `resume` with no earlier `start` breaks that invariant, so the ordering hypothesis is needed |
| `Playback.BrowserSupports` | assets/src/frontend.js:205-214 | no feature is ever reported as supported |
| `Playback.OnClick` | assets/src/frontend.js:122-167 | a click speaks iff neither flag is set, and then it speaks the post with the selected voice and no rate; it pauses only with `charIndex` support; the new label offers play/resume iff the click found `isPlaying` |
| `Playback.ClickWithoutCharIndex` | assets/src/frontend.js:127-165 | since `browserSupports` is always false: while playing, a click cancels and shows `playAudio`; at rest, it speaks once and shows `stopAudio`; once started but not playing, it cancels and shows `stopAudio` |
| `Playback.EngineEvents` | assets/src/frontend.js:142-155 | a callback is in the result iff it occurs in the page trace; the result is never longer than the trace |
| `Playback.EngineEventsAppend` | assets/src/frontend.js:142-155 | the callbacks keep their order: those of a concatenated trace are those of its parts, concatenated |
| `Playback.ClicksDoNotChangeFlags` | assets/src/frontend.js:122-167 | over any mix of clicks and callbacks, the flags are those produced by the callbacks alone. This holds by the definition of the trace semantics, where a click leaves the flags as they are; the code-level guarantee is the frame of `Controls.Control.Click` |
| `Playback.NoSpeakUntilEnd` | assets/src/frontend.js:138-161 | once speech has started, every click cancels until an `end` callback arrives; no click speaks again |
| `Playback.Session.constructor` | assets/src/frontend.js:14-15 | both flags start false |
| `Playback.Session.OnStart` | assets/src/frontend.js:152-155 | the `start` callback sets both flags |
| `Playback.Session.OnEnd` | assets/src/frontend.js:142-145 | the `end` callback clears both flags |
| `Playback.Session.OnPause` | assets/src/frontend.js:146-148 | the `pause` callback clears `isPlaying`, keeps `hasStarted` and keeps the invariant |
| `Playback.Session.OnResume` | assets/src/frontend.js:149-151 | the `resume` callback sets `isPlaying` and keeps `hasStarted`; the invariant holds afterwards when speech had started |
| `Controls.SelectValue` | assets/src/frontend.js:179 | a selector's value is "" without options; otherwise it is the value of one of its options |
| `Controls.LanguageOptions` | assets/src/frontend.js:72-82 | one option per language in set order, with value = text = tag |
| `Controls.AtMostOneLanguageSelected` | assets/src/frontend.js:72-82 | because the set holds each tag once, the loop marks at most one option selected: exactly the default language's, when there is one |
| `Controls.LanguageValueAfterInit` | assets/src/frontend.js:68-85 | after the loop, the language selector's value is the default language; with no default it stays the value it had before (the placeholder) |
| `Controls.VoiceOptions` | assets/src/frontend.js:186-192 | one option per listed voice, in list order, with value = text = voice name and none marked selected |
| `Controls.FirstOfLanguageIsFound` | assets/src/frontend.js:202 | the first catalog voice of a language is the first voice matching both that language and its own name |
| `Controls.PopulatedVoiceIsFirstOfLanguage` | assets/src/frontend.js:178-203 | right after `populateVoices`, `getSelectedVoice` gives the first catalog voice of the selected language, or nothing when the language has no voice |
| `Controls.Choose` | assets/src/frontend.js:87 | the user picks option `i`: the values and texts stay the same, and the selector's value becomes option `i`'s value |
| `Controls.Control.constructor` | src/App.php:125-140 | a control starts with the server-rendered option lists and has no button |
| `Controls.Control.SelectedVoice` | assets/src/frontend.js:195-203 | the result is absent iff no catalog voice matches both selectors' values; otherwise it is the first such voice in catalog order |
| `Controls.Control.PopulateVoices` | assets/src/frontend.js:178-193 | the voice selector's old options are all gone; it now holds exactly the options of the selected language's voices, in catalog order |
| `Controls.Control.InitButton` | assets/src/frontend.js:55-88 | given the language set's invariant, the button shows the control's text; one option per language is appended, with the default language marked; the language value is then the default, or with no default the value it had before; then the voices are populated for that value |
| `Controls.Control.ChooseLanguage` | assets/src/frontend.js:87 | choosing a language option selects it; the `change` listener repopulates the voices for the new language only when the pick changes the language value, and re-picking the shown language keeps the voice list and the chosen voice |
| `Controls.Control.ChooseVoice` | assets/src/frontend.js:199-200 | choosing a voice option makes its name the voice selector's value |
| `Controls.Control.Click` | assets/src/frontend.js:122-167 | the click issues the command that `OnClick` gives for the shared flags and the selected voice, and sets that label on this button; its frame is this button's label only, so a click cannot write `isPlaying` or `hasStarted` |
| `Controls.SharedFlagsScenario` | assets/src/frontend.js:14-15 | the flags are shared: once control A's speech has started, a first click on control B cancels instead of speaking |

## Left out

- Engine start-up (assets/src/frontend.js:22-53) is left out: `EasySpeech.init` with its timeout and poll interval, the promise chain and its `catch`. The model treats it as "the voice list arrives once": `Catalog.InitVoices` is called with the reported voices, then `Control.InitButton` runs for each control.
- The early return when the page has no control (assets/src/frontend.js:17-20) is not modelled. It only skips start-up.
- The debug feature dump and the `debug` helper (assets/src/frontend.js:33-49, 216-221) are left out. They only write output to the DOM.
- Button construction and its ARIA attributes (assets/src/frontend.js:55-66) are left out. The button is modelled only by its label.
- The `if (languageSelector)` guard (assets/src/frontend.js:69) is not modelled. Without a language selector the code would fail in `populateVoices`. The server template always renders both selectors, and the model assumes them.
- The speech engine itself is outside the model. Commands are returned values and callbacks are separate events. The model does not fix which callbacks a `cancel` or `speak` triggers, or when.
- The language and country code libraries are parameters: their tables are not modelled.
- `navigator.language || navigator.userLanguage` is a string parameter. An entirely undefined locale is not modelled.
- The label text is not modelled. Labels are keys, so the missing `stopAudio` string (src/App.php:74-78) shows up only as the key `StopAudio`.
- The code has no rate control, no voice-name exclusion list and no drawer, so the model has none.
- src/App.php and openlab-text-to-speech.php register hooks and scripts and render fixed markup. They are not part of this model beyond the initial option lists of a control.
