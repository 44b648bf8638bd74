/** The language context of src/LanguageContext.js: the stored preference, the
    es/en toggle, the translation lookup `t` and the guard of `useLanguage`.
    `localStorage` is a value passed in and returned, not an effect. */
module Language {
  import opened Wrappers
  import opened JsText

  /** A translation table: a string, or an object of named sub-tables. */
  datatype Tree = Leaf(text: string) | Node(children: map<string, Tree>)

  /** JavaScript truthiness of a lookup result: every object is truthy, and a
      string is truthy unless it is empty. A missing value is falsy too. */
  predicate Truthy(t: Tree) {
    t.Node? || t.text != []
  }

  /** `value?.[k]`: a missing value stays missing, and so does a key the object
      does not have. */
  function Child(value: Option<Tree>, k: string): Option<Tree> {
    if value.Some? && value.value.Node? && k in value.value.children
    then Some(value.value.children[k])
    else None
  }

  /** The loop `for (const k of keys) value = value?.[k]`. */
  function Walk(value: Option<Tree>, keys: seq<string>): Option<Tree>
    decreases |keys|
  {
    if keys == [] then value else Walk(Child(value, keys[0]), keys[1..])
  }

  /** Walking a path is walking its parts one after the other. */
  lemma {:induction false} WalkConcat(value: Option<Tree>, a: seq<string>, b: seq<string>)
    ensures Walk(value, a + b) == Walk(Walk(value, a), b)
    decreases |a|
  {
    if a == [] {
      assert a + b == b;
    } else {
      assert (a + b)[0] == a[0];
      assert (a + b)[1..] == a[1..] + b;
      WalkConcat(Child(value, a[0]), a[1..], b);
    }
  }

  /** Once a segment is missing, the rest of the path finds nothing. */
  lemma {:induction false} WalkMissing(keys: seq<string>)
    ensures Walk(None, keys) == None
    decreases |keys|
  {
    if keys != [] {
      WalkMissing(keys[1..]);
    }
  }

  /** `t(key)` for the given table and language. */
  function Translate(table: Tree, language: string, key: string): (r: Tree)
    ensures Truthy(r) || r == Leaf(key)
    ensures r != Leaf(key) ==> Walk(Child(Some(table), language), Split(key, '.')) == Some(r)
    ensures var found := Walk(Child(Some(table), language), Split(key, '.'));
      found.Some? && Truthy(found.value) ==> r == found.value
  {
    var found := Walk(Child(Some(table), language), Split(key, '.'));
    if found.Some? && Truthy(found.value) then found.value else Leaf(key)
  }

  /** `t` written as the loop of the source; it computes `Translate`. */
  method TranslateLoop(table: Tree, language: string, key: string) returns (r: Tree)
    ensures r == Translate(table, language, key)
  {
    var keys := Split(key, '.');
    var value := Child(Some(table), language);
    var i := 0;
    while i < |keys|
      invariant 0 <= i <= |keys|
      invariant Walk(value, keys[i..]) == Walk(Child(Some(table), language), keys)
    {
      assert keys[i..][1..] == keys[i + 1..];
      value := Child(value, keys[i]);
      i := i + 1;
    }
    assert keys[i..] == [];
    if value.Some? && Truthy(value.value) {
      r := value.value;
    } else {
      r := Leaf(key);
    }
  }

  /** A language that is not a key of the table, such as a stored 'fr', makes
      every key translate to itself. */
  lemma UnknownLanguage(table: Tree, language: string, key: string)
    requires table.Node? && language !in table.children
    ensures Translate(table, language, key) == Leaf(key)
  {
    WalkMissing(Split(key, '.'));
  }

  /** A key whose path leaves the table at some segment translates to itself. */
  lemma MissingSegment(table: Tree, language: string, key: string, n: nat)
    requires n <= |Split(key, '.')|
    requires Walk(Child(Some(table), language), Split(key, '.')[..n]) == None
    ensures Translate(table, language, key) == Leaf(key)
  {
    var keys := Split(key, '.');
    assert keys == keys[..n] + keys[n..];
    WalkConcat(Child(Some(table), language), keys[..n], keys[n..]);
    WalkMissing(keys[n..]);
  }

  // ---------------------------------------------------------------------------
  // The provider state.

  /** `saved || 'es'`: the stored string unless it is absent or empty. There is
      no check that it names a language of the table. */
  function InitialLanguage(saved: Option<string>): (l: string)
    ensures l != []
    ensures saved.Some? && saved.value != [] ==> l == saved.value
    ensures saved.None? || saved.value == [] ==> l == "es"
  {
    if saved.Some? && saved.value != [] then saved.value else "es"
  }

  /** `prev === 'es' ? 'en' : 'es'`. */
  function ToggleLanguage(l: string): (r: string)
    ensures r == "es" || r == "en"
    ensures r == "en" <==> l == "es"
  {
    if l == "es" then "en" else "es"
  }

  /** Toggling twice gets back exactly the two table languages. */
  lemma ToggleTwice(l: string)
    ensures ToggleLanguage(ToggleLanguage(l)) == l <==> l == "es" || l == "en"
  {
  }

  /** The current language and the stored preference ('language' in
      `localStorage`). */
  datatype Provider = Provider(language: string, stored: Option<string>)

  /** After every render the persisting effect has stored the current language. */
  predicate Persisted(p: Provider) {
    p.stored == Some(p.language)
  }

  /** The provider mounts with the stored preference; the effect then stores
      the language it chose. */
  function Mount(stored: Option<string>): (p: Provider)
    ensures Persisted(p) && p.language != []
    ensures p.language == InitialLanguage(stored)
  {
    var l := InitialLanguage(stored);
    Provider(l, Some(l))
  }

  /** `toggleLanguage()`, followed by the effect on the changed language. */
  function Toggle(p: Provider): (r: Provider)
    ensures Persisted(r)
    ensures r.language == ToggleLanguage(p.language)
  {
    var l := ToggleLanguage(p.language);
    Provider(l, Some(l))
  }

  /** Toggles applied in order from a fresh mount. */
  function Session(stored: Option<string>, toggles: nat): (p: Provider)
    ensures Persisted(p)
    ensures toggles > 0 ==> p.language == "es" || p.language == "en"
  {
    if toggles == 0 then Mount(stored) else Toggle(Session(stored, toggles - 1))
  }

  /** A reload, which mounts again from what was stored, comes back in the
      language the page was left in. */
  lemma {:induction false} ReloadRestores(stored: Option<string>, toggles: nat)
    ensures Mount(Session(stored, toggles).stored).language == Session(stored, toggles).language
  {
    var p := Session(stored, toggles);
    if toggles == 0 {
      assert p.language != [];
    } else {
      assert p.language == "es" || p.language == "en";
    }
  }

  /** What `useLanguage` hands out: the language, the toggle and `t`, all of
      which are determined by the provider state. */
  datatype Context = Context(provider: Provider)

  const OutsideProvider := "useLanguage must be used within a LanguageProvider"

  /** `useLanguage()`: the context of the enclosing provider, or the error it
      throws when there is none. */
  function UseLanguage(context: Option<Context>): (r: Result<Context, string>)
    ensures r.Failure? <==> context.None?
    ensures r.Failure? ==> r.error == OutsideProvider
    ensures r.Success? ==> r.value == context.value
  {
    if context.None? then Failure(OutsideProvider) else Success(context.value)
  }

  // ---------------------------------------------------------------------------
  // The `nav` part of the shipped table.

  const NavEs: Tree := Node(map[
    "home" := Leaf("Inicio"), "about" := Leaf("Acerca"), "skills" := Leaf("Habilidades"),
    "experience" := Leaf("Experiencia"), "projects" := Leaf("Proyectos"),
    "contact" := Leaf("Contacto"), "blog" := Leaf("Blog")])

  const NavEn: Tree := Node(map[
    "home" := Leaf("Home"), "about" := Leaf("About"), "skills" := Leaf("Skills"),
    "experience" := Leaf("Experience"), "projects" := Leaf("Projects"),
    "contact" := Leaf("Contact"), "blog" := Leaf("Blog")])

  const Translations: Tree := Node(map[
    "es" := Node(map["nav" := NavEs]),
    "en" := Node(map["nav" := NavEn])])

  lemma SplitTwo(a: string, b: string)
    requires '.' !in a && '.' !in b
    ensures Split(a + "." + b, '.') == [a, b]
  {
    assert Join([a, b], '.') == a + "." + b;
    SplitJoin([a, b], '.');
  }

  /** `t` of a two-segment key is two child lookups. */
  lemma TranslateTwo(table: Tree, language: string, a: string, b: string, key: string)
    requires '.' !in a && '.' !in b && key == a + "." + b
    ensures var found := Child(Child(Child(Some(table), language), a), b);
      Translate(table, language, key) ==
        if found.Some? && Truthy(found.value) then found.value else Leaf(key)
  {
    SplitTwo(a, b);
    var keys := [a, b];
    var v := Child(Some(table), language);
    assert keys[1..] == [b] && keys[1..][1..] == [];
    assert Walk(v, keys) == Walk(Child(v, a), [b]) == Walk(Child(Child(v, a), b), []);
  }

  /** The entries of the `nav` section that the examples below read. */
  lemma NavEntries()
    ensures Child(Child(Child(Some(Translations), "es"), "nav"), "home") == Some(Leaf("Inicio"))
    ensures Child(Child(Child(Some(Translations), "en"), "nav"), "home") == Some(Leaf("Home"))
    ensures Child(Child(Child(Some(Translations), "es"), "nav"), "nonexistent") == None
  {
    assert Child(Some(Translations), "es") == Some(Node(map["nav" := NavEs]));
    assert Child(Some(Translations), "en") == Some(Node(map["nav" := NavEn]));
    assert "home" in NavEs.children && NavEs.children["home"] == Leaf("Inicio");
    assert "home" in NavEn.children && NavEn.children["home"] == Leaf("Home");
    assert "nonexistent" !in NavEs.children;
  }

  /** The home link reads "Inicio" in Spanish. */
  lemma NavHomeSpanish()
    ensures Translate(Translations, "es", "nav.home") == Leaf("Inicio")
  {
    TranslateTwo(Translations, "es", "nav", "home", "nav.home");
    NavEntries();
  }

  /** The home link reads "Home" in English. */
  lemma NavHomeEnglish()
    ensures Translate(Translations, "en", "nav.home") == Leaf("Home")
  {
    TranslateTwo(Translations, "en", "nav", "home", "nav.home");
    NavEntries();
  }

  /** A key the table lacks reads as itself. */
  lemma NavMissingKey()
    ensures Translate(Translations, "es", "nav.nonexistent") == Leaf("nav.nonexistent")
  {
    TranslateTwo(Translations, "es", "nav", "nonexistent", "nav.nonexistent");
    NavEntries();
  }

  /** Every key reads as itself under a stored 'fr'. */
  lemma FrenchFallsBack(key: string)
    ensures Translate(Translations, "fr", key) == Leaf(key)
  {
    UnknownLanguage(Translations, "fr", key);
  }

  /** The key of a section names the whole sub-table, which is an object and so
      truthy: `t('nav')` is the object itself, not the key. */
  lemma SectionIsReturned()
    ensures Translate(Translations, "es", "nav") == NavEs
  {
    assert Split("nav", '.') == ["nav"] by {
      assert Join(["nav"], '.') == "nav";
      SplitJoin(["nav"], '.');
    }
  }
}
