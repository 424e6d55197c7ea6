/** The language context (utils/LanguageContext.tsx): the current language,
    its persistence in `localStorage` (a parameter here: the stored value,
    or none), and `t`, the lookup of a key in the English/French table that
    falls back to the key itself. */
module LanguageContext {
  import opened Wrappers
  import opened Strings
  import opened JsValues

  /** A row of `translations`. */
  datatype Entry = Entry(en: JStr, fr: JStr)

  const EN: JStr := Lit("en")
  const FR: JStr := Lit("fr")

  const TITLE: JStr := Lit("title")
  const SUBTITLE: JStr := Lit("subtitle")
  const SEARCH_PLACEHOLDER: JStr := Lit("searchPlaceholder")
  const POWERED_BY: JStr := Lit("poweredBy")
  const FOOTER: JStr := Lit("footer")
  const LANGUAGE_TOGGLE: JStr := Lit("languageToggle")
  const DARK_MODE_TOGGLE: JStr := Lit("darkModeToggle")

  const FOOTER_EN: JStr :=
    Lit("Proof of concept and intended for testing purposes only. ")
    + Lit("All information presented here was sourced from fcnb.ca and is accurate as of")
  const FOOTER_FR: JStr :=
    Lit("Preuve de concept et destiné uniquement à des fins de test. ")
    + Lit("Toutes les informations présentées ici proviennent de fcnb.ca et sont exactes à la date du")

  /** `translations`. */
  const TRANSLATIONS: map<JStr, Entry> := map[
    TITLE := Entry(Lit("Semantic Search"), Lit("Recherche Sémantique")),
    SUBTITLE := Entry(Lit("Search the FCNB knowledgebase using AI!"),
                      Lit("Recherchez la base de connaissances FCNB en utilisant l'IA !")),
    SEARCH_PLACEHOLDER := Entry(Lit("Ask me anything!"), Lit("Posez-moi n'importe quelle question !")),
    POWERED_BY := Entry(Lit("Powered by GPT-4"), Lit("Propulsé par GPT-4")),
    FOOTER := Entry(FOOTER_EN, FOOTER_FR),
    LANGUAGE_TOGGLE := Entry(Lit("FR"), Lit("EN")),
    DARK_MODE_TOGGLE := Entry(Lit("Toggle dark mode"), Lit("Basculer en mode sombre"))
  ]

  const LANGUAGE_ERROR: Error := Error(Lit("Error"), Lit("useLanguage must be used within a LanguageProvider"))

  /** `translations[key]?.[language]`: the entry's text for one of the two
      table languages, nothing for any other key or language. */
  function Lookup(key: JStr, language: JStr): Option<JStr> {
    if key in TRANSLATIONS && language == EN then Some(TRANSLATIONS[key].en)
    else if key in TRANSLATIONS && language == FR then Some(TRANSLATIONS[key].fr)
    else None
  }

  /** `t(key)`: the translation when there is a non-empty one, else the key.
      Keys and languages naming `Object.prototype` properties, which
      JavaScript's lookup would find by inheritance, are not modelled. */
  function T(key: JStr, language: JStr): (r: JStr)
    ensures r == key || key in TRANSLATIONS
    ensures language != EN && language != FR ==> r == key
  {
    match Lookup(key, language)
    case Some(text) => if |text| > 0 then text else key
    case None => key
  }

  /** The provider's state: the current language and the stored value. */
  datatype Provider = Provider(language: JStr, stored: Option<JStr>)

  /** Mounting: `'en'`, replaced by the stored value when that is truthy.
      The stored value is not checked against the two languages. */
  function Mount(stored: Option<JStr>): (p: Provider)
    ensures p.stored == stored
    ensures stored.Some? && |stored.value| > 0 ==> p.language == stored.value
    ensures (stored.None? || |stored.value| == 0) ==> p.language == EN
  {
    if stored.Some? && |stored.value| > 0 then Provider(stored.value, stored) else Provider(EN, stored)
  }

  /** `changeLanguage`: the context's `setLanguage`, which also stores the
      choice. */
  function ChangeLanguage(p: Provider, language: JStr): Provider {
    Provider(language, Some(language))
  }

  /** `useLanguage`: the context, or the error thrown outside a provider. */
  function UseLanguage(context: Option<Provider>): (r: Result<Provider, Error>)
    ensures r.Success? <==> context.Some?
    ensures context.None? ==> r.error == LANGUAGE_ERROR
    ensures context.Some? ==> r.value == context.value
  {
    match context
    case None => Failure(LANGUAGE_ERROR)
    case Some(p) => Success(p)
  }

  // ---------------------------------------------------------------------
  // Properties

  lemma LanguagesDiffer()
    ensures EN != FR && |EN| == 2 && |FR| == 2
  {
    assert EN[0] != FR[0];
  }

  /** Every entry of the table has both texts non-empty, so for the two
      table languages `t` returns exactly the table's text, and for any
      other key the key itself. */
  lemma TranslatesFromTable(key: JStr, language: JStr)
    ensures key in TRANSLATIONS && language == EN ==> T(key, language) == TRANSLATIONS[key].en
    ensures key in TRANSLATIONS && language == FR ==> T(key, language) == TRANSLATIONS[key].fr
    ensures key !in TRANSLATIONS ==> T(key, language) == key
  {
    LanguagesDiffer();
    if key in TRANSLATIONS {
      var e := TRANSLATIONS[key];
      assert |e.en| > 0 && |e.fr| > 0;
    }
  }

  /** A choice survives a reload: mounting with what `changeLanguage`
      stored restores it. */
  lemma ChoiceSurvivesReload(p: Provider, language: JStr)
    requires language == EN || language == FR
    ensures Mount(ChangeLanguage(p, language).stored).language == language
  {
    LanguagesDiffer();
  }

  /** A component under the provider sees, through the hook, the language
      last chosen with `setLanguage`, and its `t` answers from that
      language's column of the table; outside a provider the hook fails with
      the fixed message instead of returning a context. */
  lemma HookSeesLatestChoice(p: Provider, language: JStr, key: JStr)
    requires language == EN || language == FR
    ensures var r := UseLanguage(Some(ChangeLanguage(p, language)));
            && r.Success? && r.value.language == language && r.value.stored == Some(language)
            && (key in TRANSLATIONS ==>
                  T(key, r.value.language) == if language == EN then TRANSLATIONS[key].en else TRANSLATIONS[key].fr)
    ensures UseLanguage(None) == Failure(LANGUAGE_ERROR)
  {
    TranslatesFromTable(key, language);
    LanguagesDiffer();
  }

  /** A stored value that is neither language is adopted as it is, and then
      every key translates to itself. */
  lemma UnknownStoredLanguageShowsKeys(stored: JStr, key: JStr)
    requires |stored| > 0 && stored != EN && stored != FR
    ensures Mount(Some(stored)).language == stored
    ensures T(key, Mount(Some(stored)).language) == key
  {
  }
}

/** The language button (components/LanguageToggle.tsx). */
module LanguageToggle {
  import opened Wrappers
  import opened Strings
  import opened LanguageContext

  /** `toggleLanguage`: `'en'` goes to `'fr'`, anything else to `'en'`. */
  function Toggle(language: JStr): (r: JStr)
    ensures r == EN || r == FR
    ensures r == EN <==> language != EN
  {
    LanguagesDiffer();
    if language == EN then FR else EN
  }

  /** The button's text. */
  function Label(language: JStr): JStr {
    if language == EN then Lit("EN") else Lit("FR")
  }

  /** On the two languages the toggle swaps them and is its own inverse;
      any other language is sent to English. */
  lemma ToggleIsInvolution(language: JStr)
    ensures language == EN || language == FR ==> Toggle(Toggle(language)) == language && Toggle(language) != language
    ensures language != EN ==> Toggle(language) == EN
  {
    LanguagesDiffer();
  }

  /** The button shows the current language, while the `languageToggle`
      translation names the language the button switches to: on either
      language the two texts differ, and the translation is the label of
      the toggled language. */
  lemma LabelAndTranslationDisagree(language: JStr)
    requires language == EN || language == FR
    ensures T(LANGUAGE_TOGGLE, language) == Label(Toggle(language))
    ensures T(LANGUAGE_TOGGLE, language) != Label(language)
  {
    LanguagesDiffer();
    TranslatesFromTable(LANGUAGE_TOGGLE, language);
    assert LANGUAGE_TOGGLE[0] != DARK_MODE_TOGGLE[0];
    assert TRANSLATIONS[LANGUAGE_TOGGLE] == Entry(Lit("FR"), Lit("EN"));
    assert Lit("EN")[0] != Lit("FR")[0];
  }

  /** Clicking while an unknown stored language is current switches to
      English, persisted. */
  lemma ToggleRecoversFromUnknown(p: Provider)
    requires p.language != EN && p.language != FR
    ensures ChangeLanguage(p, Toggle(p.language)) == Provider(EN, Some(EN))
    ensures Label(p.language) == Lit("FR")
  {
  }
}
