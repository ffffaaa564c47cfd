/** `getDefaultLanguage` (assets/src/frontend.js:90-120): pick the language to preselect
    from the browser locale `userLang`, trying three spellings of it in turn. */
module LanguageResolver {
  import opened Wrappers
  import opened Strings

  /** `userLang.split('-')[0]`. */
  function LangCode(userLang: string): (r: string)
    ensures r <= userLang
    ensures '-' !in r
    ensures '-' in userLang ==> userLang[|r|] == '-'
  {
    SplitHead(userLang, '-');
    Split(userLang, '-')[0]
  }

  /** `userLang.split('-')[1]`: absent when `userLang` has no '-'. */
  function CountryCode(userLang: string): (r: Option<string>)
    ensures r.None? <==> '-' !in userLang
    ensures r.Some? ==> '-' !in r.value
  {
    var parts := Split(userLang, '-');
    if |parts| > 1 then Some(parts[1]) else None
  }

  /** The Chrome-on-Android spelling `${code}_${country}`. */
  function UnderscoreForm(userLang: string): (r: string)
    ensures LangCode(userLang) + "_" <= r
    ensures '-' in userLang ==> r == LangCode(userLang) + "_" + CountryCode(userLang).value
  {
    LangCode(userLang) + "_" + Show(CountryCode(userLang))
  }

  /** The prefix `${alpha3T(code)}-${alpha3(country)}` of the Firefox-on-Android spelling
      ('eng-USA-default'). The two lookups belong to foreign libraries and may find nothing. */
  function AlphaThreeForm(userLang: string, alpha3T: string -> Option<string>,
                          alpha3: Option<string> -> Option<string>): (r: string)
    ensures Show(alpha3T(LangCode(userLang))) + "-" <= r
    ensures '-' !in userLang ==> r == Show(alpha3T(userLang)) + "-" + Show(alpha3(None))
  {
    SplitHead(userLang, '-');
    Show(alpha3T(LangCode(userLang))) + "-" + Show(alpha3(CountryCode(userLang)))
  }

  /** Index of the first tag that starts with `p`, or `|langs|` if none does. */
  function FirstPrefixed(langs: seq<string>, p: string): (k: nat)
    ensures k <= |langs|
    ensures forall j :: 0 <= j < k ==> !(p <= langs[j])
    ensures k < |langs| ==> p <= langs[k]
    decreases |langs|
  {
    if langs == [] || p <= langs[0] then 0 else 1 + FirstPrefixed(langs[1..], p)
  }

  /** `Array.from(set).find(lang => lang.startsWith(p))`. */
  function FindPrefixed(langs: seq<string>, p: string): (r: Option<string>)
    ensures r.None? <==> forall j :: 0 <= j < |langs| ==> !(p <= langs[j])
    ensures r.Some? ==> exists k :: 0 <= k < |langs| && langs[k] == r.value && p <= langs[k]
                          && forall j :: 0 <= j < k ==> !(p <= langs[j])
  {
    var k := FirstPrefixed(langs, p);
    if k < |langs| then Some(langs[k]) else None
  }

  /** `getDefaultLanguage`: the exact locale, else its underscore spelling, else the first
      language (in insertion order) that starts with its alpha-3 spelling, else nothing. */
  function DefaultLanguage(langs: seq<string>, userLang: string, alpha3T: string -> Option<string>,
                           alpha3: Option<string> -> Option<string>): (r: Option<string>)
    ensures r.Some? ==> r.value in langs
  {
    if userLang in langs then Some(userLang)
    else if UnderscoreForm(userLang) in langs then Some(UnderscoreForm(userLang))
    else FindPrefixed(langs, AlphaThreeForm(userLang, alpha3T, alpha3))
  }

  /** The three candidates are tried in order and the first hit wins. */
  lemma DefaultLanguageChain(langs: seq<string>, userLang: string, alpha3T: string -> Option<string>,
                             alpha3: Option<string> -> Option<string>)
    ensures var r := DefaultLanguage(langs, userLang, alpha3T, alpha3);
            var u := UnderscoreForm(userLang);
            var a := AlphaThreeForm(userLang, alpha3T, alpha3);
            && (userLang in langs ==> r == Some(userLang))
            && (userLang !in langs && u in langs ==> r == Some(u))
            && (userLang !in langs && u !in langs && r.Some? ==>
                  exists k :: 0 <= k < |langs| && langs[k] == r.value && a <= langs[k]
                    && forall j :: 0 <= j < k ==> !(a <= langs[j]))
  {
  }

  /** Nothing is preselected exactly when none of the three candidates hits. */
  lemma DefaultLanguageNone(langs: seq<string>, userLang: string, alpha3T: string -> Option<string>,
                            alpha3: Option<string> -> Option<string>)
    ensures DefaultLanguage(langs, userLang, alpha3T, alpha3).None? <==>
              && userLang !in langs
              && UnderscoreForm(userLang) !in langs
              && forall j :: 0 <= j < |langs| ==> !(AlphaThreeForm(userLang, alpha3T, alpha3) <= langs[j])
  {
  }

  /** A locale without a country part ('en') has an absent country, which the template
      literal spells "undefined": the second candidate is then 'en_undefined'. */
  lemma UnderscoreFormWithoutCountry(userLang: string)
    requires '-' !in userLang
    ensures CountryCode(userLang) == None
    ensures UnderscoreForm(userLang) == userLang + "_undefined"
  {
    SplitHead(userLang, '-');
  }

  /** A locale 'code-COUNTRY...' splits into the code and the country part: the second
      candidate is 'code_COUNTRY' and the third is built from the lookups of both parts. */
  lemma LocaleWithCountry(code: string, rest: string, alpha3T: string -> Option<string>,
                          alpha3: Option<string> -> Option<string>)
    requires '-' !in code
    ensures LangCode(code + "-" + rest) == code
    ensures CountryCode(code + "-" + rest) == Some(Split(rest, '-')[0])
    ensures UnderscoreForm(code + "-" + rest) == code + "_" + Split(rest, '-')[0]
    ensures AlphaThreeForm(code + "-" + rest, alpha3T, alpha3) ==
              Show(alpha3T(code)) + "-" + Show(alpha3(Some(Split(rest, '-')[0])))
  {
    assert code + "-" + rest == code + ['-'] + rest;
    SplitAtSeparator(code, '-', rest);
  }

  /** Helper for `FirefoxAndroidExample` only: the tags a Firefox on Android reports for
      British and American English. */
  const AndroidTags: seq<string> := ["eng-GBR-default", "eng-USA-default"]

  /** Helper for `FirefoxAndroidExample` only: 'en-US' and 'en_US' are not among those tags,
      and only the second starts with 'eng-USA'. */
  lemma AndroidTagsMatch()
    ensures "en-US" !in AndroidTags && "en_US" !in AndroidTags
    ensures !("eng-USA" <= AndroidTags[0]) && "eng-USA" <= AndroidTags[1]
  {
    assert "en-US"[2] != AndroidTags[0][2] && "en-US"[2] != AndroidTags[1][2];
    assert "en_US"[2] != AndroidTags[0][2] && "en_US"[2] != AndroidTags[1][2];
    assert "eng-USA"[4] != AndroidTags[0][4];
  }

  /** Firefox on Android: 'en-US' finds 'eng-USA-default' through the alpha-3 spelling
      whenever the lookups map 'en' to 'eng' and 'US' to 'USA'. */
  lemma FirefoxAndroidExample(alpha3T: string -> Option<string>, alpha3: Option<string> -> Option<string>)
    requires alpha3T("en") == Some("eng") && alpha3(Some("US")) == Some("USA")
    ensures DefaultLanguage(AndroidTags, "en-US", alpha3T, alpha3) == Some("eng-USA-default")
  {
    SplitHead("US", '-');
    assert "en-US" == "en" + "-" + "US";
    LocaleWithCountry("en", "US", alpha3T, alpha3);
    AndroidTagsMatch();
    assert UnderscoreForm("en-US") == "en_US";
    assert AlphaThreeForm("en-US", alpha3T, alpha3) == "eng-USA";
    assert FirstPrefixed(AndroidTags, "eng-USA") == 1 by {
      assert AndroidTags[1..] == ["eng-USA-default"];
    }
  }


}
