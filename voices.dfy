/** The voice catalog: the voices the speech engine reports once it is ready, and the
    set of language tags built from them (assets/src/frontend.js:169-203). */
module Voices {
  import opened Wrappers

  /** A voice as the engine reports it. Only `name` and `lang` are consulted by the
      controller; the other attributes tell apart voices that share both. */
  datatype Voice = Voice(voiceURI: string, name: string, lang: string, localService: bool, isDefault: bool)

  /** No tag occurs twice: the content of a JavaScript `Set`, in insertion order. */
  predicate Distinct(s: seq<string>)
  {
    forall i, j :: 0 <= i < j < |s| ==> s[i] != s[j]
  }

  /** `set.add(x)` on an insertion-ordered set: a tag already present keeps its place. */
  function SetAdd(s: seq<string>, x: string): (r: seq<string>)
    ensures s <= r && |r| <= |s| + 1
    ensures forall y :: y in r <==> y in s || y == x
    ensures Distinct(s) ==> Distinct(r)
  {
    if x in s then s else s + [x]
  }

  /** `xs.forEach(x => set.add(x))`: adds the tags one after the other. */
  function AddAll(s: seq<string>, xs: seq<string>): (r: seq<string>)
    ensures s <= r
    ensures forall x :: x in r <==> x in s || x in xs
    ensures Distinct(s) ==> Distinct(r)
    decreases |xs|
  {
    if xs == [] then s else AddAll(SetAdd(s, xs[0]), xs[1..])
  }

  /** Adding one more tag at the end of the list is one more `SetAdd`. */
  lemma {:induction false} AddAllSnoc(s: seq<string>, xs: seq<string>, x: string)
    ensures AddAll(s, xs + [x]) == SetAdd(AddAll(s, xs), x)
    decreases |xs|
  {
    if xs == [] {
      assert xs + [x] == [x];
    } else {
      assert (xs + [x])[1..] == xs[1..] + [x];
      AddAllSnoc(SetAdd(s, xs[0]), xs[1..], x);
    }
  }

  /** Reporting the same tags again adds nothing. */
  lemma {:induction false} AddAllIdempotent(s: seq<string>, xs: seq<string>)
    ensures AddAll(AddAll(s, xs), xs) == AddAll(s, xs)
  {
    var r := AddAll(s, xs);
    AddAllAbsorbs(r, xs);
  }

  /** Adding tags that are all present already leaves the set as it is. */
  lemma {:induction false} AddAllAbsorbs(s: seq<string>, xs: seq<string>)
    requires forall x :: x in xs ==> x in s
    ensures AddAll(s, xs) == s
    decreases |xs|
  {
    if xs != [] {
      assert xs[0] in xs;
      assert SetAdd(s, xs[0]) == s;
      forall x | x in xs[1..] ensures x in s {
        assert x in xs;
      }
      AddAllAbsorbs(s, xs[1..]);
    }
  }

  /** The `lang` of every voice, in report order. */
  function Langs(vs: seq<Voice>): (r: seq<string>)
    ensures |r| == |vs|
    ensures forall i :: 0 <= i < |vs| ==> r[i] == vs[i].lang
  {
    seq(|vs|, i requires 0 <= i < |vs| => vs[i].lang)
  }

  /** The tags of one more voice are the tags so far and that voice's tag. */
  lemma LangsSnoc(vs: seq<Voice>, i: nat)
    requires i < |vs|
    ensures Langs(vs[..i + 1]) == Langs(vs[..i]) + [vs[i].lang]
  {
  }

  /** `voices.filter(voice => voice.lang === lang)`. */
  function VoicesFor(vs: seq<Voice>, lang: string): (r: seq<Voice>)
    ensures |r| <= |vs|
    ensures forall v :: v in r ==> v in vs && v.lang == lang
    decreases |vs|
  {
    if vs == [] then []
    else if vs[0].lang == lang then [vs[0]] + VoicesFor(vs[1..], lang)
    else VoicesFor(vs[1..], lang)
  }

  /** The filter keeps exactly the voices of the language, each as often as the catalog has it. */
  lemma {:induction false} VoicesForCounts(vs: seq<Voice>, lang: string)
    ensures forall v :: multiset(VoicesFor(vs, lang))[v] == if v.lang == lang then multiset(vs)[v] else 0
    decreases |vs|
  {
    if vs != [] {
      VoicesForCounts(vs[1..], lang);
      assert vs == [vs[0]] + vs[1..];
    }
  }

  /** The filter keeps catalog order: filtering a concatenation concatenates the filtered parts. */
  lemma {:induction false} VoicesForAppend(a: seq<Voice>, b: seq<Voice>, lang: string)
    ensures VoicesFor(a + b, lang) == VoicesFor(a, lang) + VoicesFor(b, lang)
    decreases |a|
  {
    if a != [] {
      assert (a + b)[0] == a[0];
      assert (a + b)[1..] == a[1..] + b;
      VoicesForAppend(a[1..], b, lang);
    } else {
      assert a + b == b;
    }
  }

  /** Filtering twice by the same language filters once. */
  lemma {:induction false} VoicesForIdempotent(vs: seq<Voice>, lang: string)
    ensures VoicesFor(VoicesFor(vs, lang), lang) == VoicesFor(vs, lang)
    decreases |vs|
  {
    if vs != [] {
      VoicesForIdempotent(vs[1..], lang);
    }
  }

  /** The condition `getSelectedVoice` looks for. */
  predicate Matches(v: Voice, lang: string, name: string)
  {
    v.lang == lang && v.name == name
  }

  /** Index of the first voice matching both selector values, or `|vs|` if none does. */
  function FirstMatch(vs: seq<Voice>, lang: string, name: string): (k: nat)
    ensures k <= |vs|
    ensures forall j :: 0 <= j < k ==> !Matches(vs[j], lang, name)
    ensures k < |vs| ==> Matches(vs[k], lang, name)
    decreases |vs|
  {
    if vs == [] || Matches(vs[0], lang, name) then 0 else 1 + FirstMatch(vs[1..], lang, name)
  }

  /** `voices.find(voice => voice.lang === lang && voice.name === name)`. */
  function FindVoice(vs: seq<Voice>, lang: string, name: string): (r: Option<Voice>)
    ensures r.None? <==> forall j :: 0 <= j < |vs| ==> !Matches(vs[j], lang, name)
    ensures r.Some? ==> exists k :: 0 <= k < |vs| && vs[k] == r.value && Matches(vs[k], lang, name)
                          && forall j :: 0 <= j < k ==> !Matches(vs[j], lang, name)
  {
    var k := FirstMatch(vs, lang, name);
    if k < |vs| then Some(vs[k]) else None
  }

  /** The catalog: the module-level `voices` list and `browserLanguages` set. Before the
      engine reports, the list is empty and the set is empty. */
  class Catalog {
    var voices: seq<Voice>
    var languages: seq<string>

    ghost predicate Valid()
      reads this
    {
      Distinct(languages)
    }

    constructor ()
      ensures Valid()
      ensures voices == [] && languages == []
    {
      voices := [];
      languages := [];
    }

    /** `initVoices`: store the reported voices and add each voice's `lang` to the set. */
    method InitVoices(reported: seq<Voice>)
      requires Valid()
      modifies this
      ensures Valid()
      ensures voices == reported
      ensures languages == AddAll(old(languages), Langs(reported))
    {
      voices := reported;
      var i := 0;
      while i < |reported|
        invariant 0 <= i <= |reported|
        invariant voices == reported
        invariant languages == AddAll(old(languages), Langs(reported[..i]))
      {
        var lang := reported[i].lang;
        LangsSnoc(reported, i);
        AddAllSnoc(old(languages), Langs(reported[..i]), lang);
        if lang !in languages {
          languages := languages + [lang];
        }
        i := i + 1;
      }
      assert reported[..i] == reported;
    }
  }

  /** On a fresh page the language set holds exactly the reported tags, each once. */
  lemma LanguagesOfFreshCatalog(reported: seq<Voice>)
    ensures Distinct(AddAll([], Langs(reported)))
    ensures forall t :: t in AddAll([], Langs(reported)) <==> exists v :: v in reported && v.lang == t
  {
  }
}
