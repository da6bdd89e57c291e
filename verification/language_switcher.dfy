/** The language dropdown: native names, the button label, the sorted option
    list and the selection. */
module LanguageSwitcher {

  import opened Common
  import opened Text
  import Sorting
  import Profile

  /** The switcher's table from English language names to native names:
      the profile page's fifteen entries followed by eleven more. */
  const NativeLanguageNames: seq<(string, string)> := [
    ("English", "English - EN"),
    ("Hindi", "हिन्दी - HI"),
    ("Spanish", "Español - ES"),
    ("French", "Français - FR"),
    ("German", "Deutsch - DE"),
    ("Arabic", "العربية - AR"),
    ("Mandarin Chinese", "中文 (简体) - ZH"),
    ("Portuguese", "Português - PT"),
    ("Russian", "Русский - RU"),
    ("Japanese", "日本語 - JA"),
    ("Korean", "한국어 - KO"),
    ("Tamil", "தமிழ் - TA"),
    ("Bengali", "বাংলা - BN"),
    ("Gujarati", "ગુજરાતી - GU"),
    ("Turkish", "Türkçe - TR"),
    ("Marathi", "मराठी - MR"),
    ("Telugu", "తెలుగు - TE"),
    ("Kannada", "ಕನ್ನಡ - KN"),
    ("Malayalam", "മലയാളം - ML"),
    ("Italian", "Italiano - IT"),
    ("Dutch", "Nederlands - NL"),
    ("Urdu", "اردو - UR"),
    ("Polish", "Polski - PL"),
    ("Swedish", "Svenska - SV"),
    ("Vietnamese", "Tiếng Việt - VI"),
    ("Thai", "ไทย - TH")
  ]

  /** `getNativeName`: the table entry, or the input when there is none. */
  function GetNativeName(lang: string): (r: string)
    ensures Lookup(NativeLanguageNames, lang).None? ==> r == lang
    ensures Lookup(NativeLanguageNames, lang).Some? ==> r == Lookup(NativeLanguageNames, lang).value
  {
    assert forall i :: 0 <= i < |NativeLanguageNames| ==> NativeLanguageNames[i].1 != [];
    OrElse(Lookup(NativeLanguageNames, lang), lang)
  }

  /** The switcher and the profile page name every language the profile
      page knows in the same way. */
  lemma AgreesWithProfile(lang: string)
    requires Lookup(Profile.NativeLanguageNames, lang).Some?
    ensures GetNativeName(lang) == Profile.GetNativeName(lang)
  {
    var t := NativeLanguageNames;
    assert t == Profile.NativeLanguageNames + t[15..];
    LookupAppend(Profile.NativeLanguageNames, t[15..], lang);
  }

  /** The button shows the native name up to its first " -". */
  function ButtonLabel(language: string): (shown: string)
    ensures StartsWith(GetNativeName(language), shown)
    ensures !Contains(shown, " -")
    ensures |shown| < |GetNativeName(language)| ==> OccursAt(GetNativeName(language), " -", |shown|)
  {
    var name := GetNativeName(language);
    SplitHead(name, " -")
  }

  /** A listed language shows its native name without the code. */
  lemma SpanishButton()
    ensures ButtonLabel("Spanish") == "Español"
  {
    SpanishIsListed();
    SpanishLabel();
  }

  /** A language outside the table, written without spaces, shows as it
      is. */
  lemma UnlistedButton(lang: string)
    requires Lookup(NativeLanguageNames, lang).None? && ' ' !in lang
    ensures ButtonLabel(lang) == lang
  {
    assert GetNativeName(lang) == lang;
    MissingFirstCharNotContained(lang, " -");
  }

  /** A table entry whose name, of length `k`, is followed by " -" shows
      as that name, whatever comes after, provided the name itself holds
      no " -". */
  lemma LabelBeforeCode(entry: string, k: nat)
    requires k + 1 < |entry| && entry[k] == ' ' && entry[k + 1] == '-'
    requires !Contains(entry[..k], " -")
    ensures SplitHead(entry, " -") == entry[..k]
  {
    var name := entry[..k];
    assert OccursAt(entry, " -", k);
    forall j | 0 <= j < k ensures !OccursAt(entry, " -", j) {
      if j + 2 <= k {
        assert !OccursAt(name, " -", j);
        assert entry[j..j + 2] == name[j..j + 2];
      } else {
        assert entry[j..j + 2][1] == entry[k] == ' ';
      }
    }
    assert IndexOf(entry, " -") == Some(k);
  }

  lemma SpanishLabel()
    ensures SplitHead("Español - ES", " -") == "Español"
  {
    var es := "Español - ES";
    assert ' ' !in es[..7];
    MissingFirstCharNotContained(es[..7], " -");
    LabelBeforeCode(es, 7);
  }

  lemma SpanishIsListed()
    ensures GetNativeName("Spanish") == "Español - ES"
  {
    var t := NativeLanguageNames;
    assert t[0].0 != "Spanish" by { assert t[0].0[0] == 'E'; }
    assert t[1].0 != "Spanish" by { assert t[1].0[0] == 'H'; }
    assert t[2] == ("Spanish", "Español - ES");
    assert Lookup(t, "Spanish") == Lookup(t[1..], "Spanish") == Lookup(t[2..], "Spanish");
  }

  /** JavaScript's default string order, by character codes: `a` comes no
      later than `b`. */
  predicate LexLe(a: string, b: string)
  {
    if a == [] then true
    else if b == [] then false
    else if a[0] != b[0] then a[0] < b[0]
    else LexLe(a[1..], b[1..])
  }

  function Alphabetical(): (string, string) -> bool
  {
    (a, b) => LexLe(a, b)
  }

  lemma {:induction false} LexLeTotalPair(a: string, b: string)
    ensures LexLe(a, b) || LexLe(b, a)
  {
    if a != [] && b != [] && a[0] == b[0] {
      LexLeTotalPair(a[1..], b[1..]);
    }
  }

  lemma {:induction false} LexLeTransitivePair(a: string, b: string, c: string)
    requires LexLe(a, b) && LexLe(b, c)
    ensures LexLe(a, c)
  {
    if a != [] && b != [] && c != [] && a[0] == b[0] && b[0] == c[0] {
      LexLeTransitivePair(a[1..], b[1..], c[1..]);
    }
  }

  /** Two strings each no later than the other are the same string. */
  lemma {:induction false} LexLeAntisymmetric(a: string, b: string)
    requires LexLe(a, b) && LexLe(b, a)
    ensures a == b
  {
    if a != [] && b != [] {
      LexLeAntisymmetric(a[1..], b[1..]);
      assert a == [a[0]] + a[1..] && b == [b[0]] + b[1..];
    }
  }

  lemma AlphabeticalIsOrder()
    ensures Sorting.Total(Alphabetical()) && Sorting.Transitive(Alphabetical())
  {
    forall a, b ensures Alphabetical()(a, b) || Alphabetical()(b, a) {
      LexLeTotalPair(a, b);
    }
    forall a, b, c | Alphabetical()(a, b) && Alphabetical()(b, c) ensures Alphabetical()(a, c) {
      LexLeTransitivePair(a, b, c);
    }
  }

  /** `languages.sort()`, which also reorders the shared list in place. */
  function SortedOptions(languages: seq<string>): (options: seq<string>)
    ensures multiset(options) == multiset(languages)
  {
    Sorting.Sort(languages, Alphabetical())
  }

  /** The dropdown lists the same languages, each no later than every one
      below it, and sorting the already sorted shared list again on the next
      render changes nothing. */
  lemma OptionsAreSorted(languages: seq<string>)
    ensures var o := SortedOptions(languages);
      forall i, j :: 0 <= i < j < |o| ==> LexLe(o[i], o[j])
    ensures SortedOptions(SortedOptions(languages)) == SortedOptions(languages)
  {
    AlphabeticalIsOrder();
    var o := SortedOptions(languages);
    Sorting.SortSorted(languages, Alphabetical());
    Sorting.SortedPairwise(o, Alphabetical());
    Sorting.SortOfSorted(o, Alphabetical());
  }

  datatype Switcher = Switcher(language: string, open: bool)

  /** The button opens and closes the list. */
  function ToggleOpen(s: Switcher): (r: Switcher)
    ensures r.open != s.open && r.language == s.language
  {
    s.(open := !s.open)
  }

  /** Pressing the button twice leaves the list as it was. */
  lemma ToggleOpenTwice(s: Switcher)
    ensures ToggleOpen(ToggleOpen(s)) == s
  {
  }

  /** Choosing an option sets the language and closes the list. */
  function Select(s: Switcher, lang: string): (r: Switcher)
    ensures r.language == lang && !r.open
  {
    Switcher(lang, false)
  }

  /** The checkmark is on the current language's option. */
  predicate Checked(s: Switcher, option: string)
  {
    s.language == option
  }

  /** After a choice, exactly the chosen option carries the checkmark, and
      the button names it. */
  lemma SelectMovesCheckmark(s: Switcher, lang: string, options: seq<string>)
    ensures forall o :: o in options ==> (Checked(Select(s, lang), o) <==> o == lang)
    ensures ButtonLabel(Select(s, lang).language) == ButtonLabel(lang)
  {
  }
}
