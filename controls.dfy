/** One text-to-speech control on the page (assets/src/frontend.js:55-88, 178-203): its
    language and voice `<select>` elements, seen as their option lists, and its button. */
module Controls {
  import opened Wrappers
  import opened Voices
  import opened LanguageResolver
  import opened Playback

  /** An `<option>`: its value, its text and whether it was marked selected. */
  datatype SelectOption = SelectOption(value: string, text: string, selected: bool)

  /** `select.value` of a single-choice `<select>`: the value of the option marked selected
      last, else of the first option, else "" when there is no option. */
  function SelectValue(opts: seq<SelectOption>): (v: string)
    ensures opts == [] ==> v == ""
    ensures opts != [] ==> exists i :: 0 <= i < |opts| && opts[i].value == v
    decreases |opts|
  {
    if opts == [] then ""
    else if |opts| == 1 || opts[|opts| - 1].selected then opts[|opts| - 1].value
    else SelectValue(opts[..|opts| - 1])
  }

  /** The option marked selected last decides the value. */
  lemma {:induction false} SelectValueLastSelected(opts: seq<SelectOption>, k: nat)
    requires k < |opts| && opts[k].selected
    requires forall j :: k < j < |opts| ==> !opts[j].selected
    ensures SelectValue(opts) == opts[k].value
    decreases |opts|
  {
    if k < |opts| - 1 {
      SelectValueLastSelected(opts[..|opts| - 1], k);
    }
  }

  /** Appending options none of which is marked selected leaves the value unchanged. */
  lemma {:induction false} SelectValueAppendUnselected(a: seq<SelectOption>, b: seq<SelectOption>)
    requires a != []
    requires forall j :: 0 <= j < |b| ==> !b[j].selected
    ensures SelectValue(a + b) == SelectValue(a)
    decreases |b|
  {
    if b != [] {
      var ab := a + b;
      assert ab[..|ab| - 1] == a + b[..|b| - 1];
      SelectValueAppendUnselected(a, b[..|b| - 1]);
    } else {
      assert a + b == a;
    }
  }

  /** With no option marked selected, the first option gives the value. */
  lemma SelectValueFirst(opts: seq<SelectOption>)
    requires opts != []
    requires forall j :: 0 <= j < |opts| ==> !opts[j].selected
    ensures SelectValue(opts) == opts[0].value
  {
  }

  /** The options the loop in `initButton` creates: value = text = tag, and the tag equal
      to the default language marked selected. */
  function LanguageOptions(langs: seq<string>, default: Option<string>): (opts: seq<SelectOption>)
    ensures |opts| == |langs|
    ensures forall i :: 0 <= i < |langs| ==> opts[i].value == langs[i] && opts[i].text == langs[i]
  {
    seq(|langs|, i requires 0 <= i < |langs| => SelectOption(langs[i], langs[i], default == Some(langs[i])))
  }

  /** The option loop marks at most one option selected, since the set holds each tag once;
      it marks exactly the default language's option when there is one. */
  lemma AtMostOneLanguageSelected(langs: seq<string>, default: Option<string>)
    requires Distinct(langs)
    ensures var opts := LanguageOptions(langs, default);
            && (forall i, j :: 0 <= i < j < |opts| && opts[i].selected ==> !opts[j].selected)
            && (forall i :: 0 <= i < |opts| ==> (opts[i].selected <==> default == Some(langs[i])))
  {
  }

  /** After the option loop the language selector shows the default language when there
      is one, and otherwise keeps the value of the options it already had. */
  lemma {:induction false} LanguageValueAfterInit(before: seq<SelectOption>, langs: seq<string>, default: Option<string>)
    requires Distinct(langs)
    requires before != []
    requires default.Some? ==> default.value in langs
    ensures SelectValue(before + LanguageOptions(langs, default)) ==
              if default.Some? then default.value else SelectValue(before)
  {
    var opts := LanguageOptions(langs, default);
    if default.Some? {
      var k :| 0 <= k < |langs| && langs[k] == default.value;
      var all := before + opts;
      forall j | |before| + k < j < |all| ensures !all[j].selected {
        assert langs[j - |before|] != langs[k];
      }
      SelectValueLastSelected(all, |before| + k);
    } else {
      SelectValueAppendUnselected(before, opts);
    }
  }

  /** The options `populateVoices` creates: value = text = voice name, none selected. */
  function VoiceOptions(vs: seq<Voice>): (opts: seq<SelectOption>)
    ensures |opts| == |vs|
    ensures forall i :: 0 <= i < |vs| ==> opts[i] == SelectOption(vs[i].name, vs[i].name, false)
  {
    seq(|vs|, i requires 0 <= i < |vs| => SelectOption(vs[i].name, vs[i].name, false))
  }

  /** The first catalog voice of a language is the first voice matching its own language and name. */
  lemma {:induction false} FirstOfLanguageIsFound(vs: seq<Voice>, lang: string)
    requires VoicesFor(vs, lang) != []
    ensures var k := FirstMatch(vs, lang, VoicesFor(vs, lang)[0].name);
            k < |vs| && vs[k] == VoicesFor(vs, lang)[0]
    decreases |vs|
  {
    if vs[0].lang != lang {
      FirstOfLanguageIsFound(vs[1..], lang);
    }
  }

  /** Right after `populateVoices`, the voice a click would speak with is the first catalog
      voice of the selected language, and there is none when the language has no voice. */
  lemma PopulatedVoiceIsFirstOfLanguage(vs: seq<Voice>, lang: string)
    ensures var listed := VoicesFor(vs, lang);
            FindVoice(vs, lang, SelectValue(VoiceOptions(listed))) ==
              if listed == [] then None else Some(listed[0])
  {
    var listed := VoicesFor(vs, lang);
    if listed == [] {
      VoicesForCounts(vs, lang);
      forall j | 0 <= j < |vs| ensures !Matches(vs[j], lang, "") {
        assert vs[j] in vs;
        assert multiset(vs)[vs[j]] > 0;
      }
    } else {
      SelectValueFirst(VoiceOptions(listed));
      FirstOfLanguageIsFound(vs, lang);
    }
  }

  /** Marking option `i` selected as a user does: every other option is unmarked. */
  function Choose(opts: seq<SelectOption>, i: nat): (r: seq<SelectOption>)
    requires i < |opts|
    ensures |r| == |opts|
    ensures forall j :: 0 <= j < |opts| ==> r[j].value == opts[j].value && r[j].text == opts[j].text
    ensures SelectValue(r) == opts[i].value
  {
    var r := seq(|opts|, j requires 0 <= j < |opts| => opts[j].(selected := j == i));
    SelectValueLastSelected(r, i);
    r
  }

  /** One control: its language selector, its voice selector and its button, which does
      not exist until `initButton` creates it. */
  class Control {
    var languageOptions: seq<SelectOption>
    var voiceOptions: seq<SelectOption>
    var button: Option<Label>

    /** The control as the server renders it, with its placeholder options. */
    constructor (languageOptions0: seq<SelectOption>, voiceOptions0: seq<SelectOption>)
      ensures languageOptions == languageOptions0 && voiceOptions == voiceOptions0
      ensures button == None
    {
      languageOptions := languageOptions0;
      voiceOptions := voiceOptions0;
      button := None;
    }

    /** `getSelectedVoice`: the first catalog voice matching both selectors' values. */
    function SelectedVoice(catalog: Catalog): (r: Option<Voice>)
      reads this, catalog
      ensures r.Some? ==> exists k :: 0 <= k < |catalog.voices| && catalog.voices[k] == r.value
                            && Matches(r.value, SelectValue(languageOptions), SelectValue(voiceOptions))
                            && forall j :: 0 <= j < k ==> !Matches(catalog.voices[j], SelectValue(languageOptions), SelectValue(voiceOptions))
      ensures r.None? ==> forall v :: v in catalog.voices ==> !Matches(v, SelectValue(languageOptions), SelectValue(voiceOptions))
    {
      FindVoice(catalog.voices, SelectValue(languageOptions), SelectValue(voiceOptions))
    }

    /** `populateVoices`: empty the voice selector, then add one option per catalog voice
        of the selected language, in catalog order. */
    method PopulateVoices(catalog: Catalog)
      modifies this`voiceOptions
      ensures voiceOptions == VoiceOptions(VoicesFor(catalog.voices, SelectValue(languageOptions)))
    {
      var selectedLang := SelectValue(languageOptions);
      var voicesList := VoicesFor(catalog.voices, selectedLang);
      voiceOptions := [];
      var i := 0;
      while i < |voicesList|
        invariant 0 <= i <= |voicesList|
        invariant voiceOptions == VoiceOptions(voicesList[..i])
      {
        voiceOptions := voiceOptions + [SelectOption(voicesList[i].name, voicesList[i].name, false)];
        i := i + 1;
      }
      assert voicesList[..i] == voicesList;
    }

    /** `initButton`: create the button with the control's text, add one option per
        language of the set with the default language marked, then populate the voices. */
    method InitButton(catalog: Catalog, userLang: string, alpha3T: string -> Option<string>,
                      alpha3: Option<string> -> Option<string>, buttonText: string)
      requires catalog.Valid()
      modifies this
      ensures button == Some(ButtonText(buttonText))
      ensures languageOptions == old(languageOptions) +
                LanguageOptions(catalog.languages, DefaultLanguage(catalog.languages, userLang, alpha3T, alpha3))
      ensures var d := DefaultLanguage(catalog.languages, userLang, alpha3T, alpha3);
              && (d.Some? ==> SelectValue(languageOptions) == d.value)
              && (d.None? && old(languageOptions) != [] ==> SelectValue(languageOptions) == SelectValue(old(languageOptions)))
      ensures voiceOptions == VoiceOptions(VoicesFor(catalog.voices, SelectValue(languageOptions)))
    {
      button := Some(ButtonText(buttonText));
      var defaultLanguage := DefaultLanguage(catalog.languages, userLang, alpha3T, alpha3);
      var langs := catalog.languages;
      var i := 0;
      while i < |langs|
        invariant 0 <= i <= |langs|
        invariant button == Some(ButtonText(buttonText))
        invariant languageOptions == old(languageOptions) + LanguageOptions(langs[..i], defaultLanguage)
      {
        assert LanguageOptions(langs[..i + 1], defaultLanguage) ==
               LanguageOptions(langs[..i], defaultLanguage) + [SelectOption(langs[i], langs[i], defaultLanguage == Some(langs[i]))];
        languageOptions := languageOptions + [SelectOption(langs[i], langs[i], defaultLanguage == Some(langs[i]))];
        i := i + 1;
      }
      assert langs[..i] == langs;
      if old(languageOptions) != [] {
        LanguageValueAfterInit(old(languageOptions), langs, defaultLanguage);
      } else if defaultLanguage.Some? {
        var k :| 0 <= k < |langs| && langs[k] == defaultLanguage.value;
        forall j | k < j < |languageOptions| ensures !languageOptions[j].selected {
          assert langs[j] != langs[k];
        }
        SelectValueLastSelected(languageOptions, k);
      }
      PopulateVoices(catalog);
    }

    /** The user picks language option `i`. The browser fires `change`, and the listener
        repopulates the voices, only when the pick changes the language value; re-picking
        the language already shown keeps the voice list and the chosen voice. */
    method ChooseLanguage(catalog: Catalog, i: nat)
      requires i < |languageOptions|
      modifies this`languageOptions, this`voiceOptions
      ensures languageOptions == Choose(old(languageOptions), i)
      ensures SelectValue(languageOptions) == old(languageOptions)[i].value
      ensures old(languageOptions)[i].value == old(SelectValue(languageOptions)) ==> voiceOptions == old(voiceOptions)
      ensures old(languageOptions)[i].value != old(SelectValue(languageOptions)) ==>
                voiceOptions == VoiceOptions(VoicesFor(catalog.voices, old(languageOptions)[i].value))
    {
      var changed := languageOptions[i].value != SelectValue(languageOptions);
      languageOptions := Choose(languageOptions, i);
      if changed {
        PopulateVoices(catalog);
      }
    }

    /** The user picks voice option `i`. */
    method ChooseVoice(i: nat)
      requires i < |voiceOptions|
      modifies this`voiceOptions
      ensures voiceOptions == Choose(old(voiceOptions), i)
      ensures SelectValue(voiceOptions) == old(voiceOptions)[i].value
    {
      voiceOptions := Choose(voiceOptions, i);
    }

    /** `onButtonClick`: look up the selected voice, issue one engine command and rewrite
        this button's label. The shared flags are read, never written. */
    method Click(session: Session, catalog: Catalog, postContent: string) returns (command: Command)
      modifies this`button
      ensures var r := OnClick(session.State(), BrowserSupports("charIndex"), postContent, SelectedVoice(catalog));
              command == r.command && button == Some(r.newLabel)
    {
      var voice := FindVoice(catalog.voices, SelectValue(languageOptions), SelectValue(voiceOptions));
      var charIndex := BrowserSupports("charIndex");
      if session.isPlaying {
        if charIndex {
          command := Pause;
        } else {
          command := Cancel;
        }
        button := Some(if charIndex then ResumeAudio else PlayAudio);
      } else {
        if !session.hasStarted {
          command := Speak(postContent, voice);
        } else if charIndex {
          command := Pause;
        } else {
          command := Cancel;
        }
        button := Some(if charIndex then PauseAudio else StopAudio);
      }
    }
  }

  /** The flags belong to the page, not to a control: once control `a` has started
      speaking, a first click on control `b` cancels instead of speaking `b`'s choice. */
  method SharedFlagsScenario(catalog: Catalog, a: Control, b: Control, session: Session, postContent: string)
      returns (first: Command, second: Command)
    requires session.State() == Idle
    modifies a`button, b`button, session
    ensures first == Speak(postContent, old(a.SelectedVoice(catalog)))
    ensures second == Cancel && b.button == Some(PlayAudio)
  {
    first := a.Click(session, catalog, postContent);
    session.OnStart();
    second := b.Click(session, catalog, postContent);
  }
}
