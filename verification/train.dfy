/** Preparing the intent classifier's training data from the store: the
    sorted class list, the language's patterns, the lemmatised vocabulary,
    the (tokens, label) documents, their bag-of-words and one-hot
    encodings, and the shuffle before training. The tokenizer, the
    lemmatizer and the random source are parameters. */
module Train {
  import opened Wrappers
  import opened Models
  import opened Lex
  import Ingest

  // ---------------------------------------------------------------------
  // Classes

  /** The label column of one language, one entry per stored context. */
  function ClassColumn(store: Store, l: Lang): seq<Option<string>> {
    seq(|store|, i requires 0 <= i < |store| => store[i].context.labels.Get(l))
  }

  predicate AllSome(s: seq<Option<string>>) {
    forall i :: 0 <= i < |s| ==> s[i].Some?
  }

  function Values(s: seq<Option<string>>): seq<string>
    requires AllSome(s)
  {
    seq(|s|, i requires 0 <= i < |s| => s[i].value)
  }

  function Wrap(t: seq<string>): seq<Option<string>> {
    seq(|t|, i requires 0 <= i < |t| => Some(t[i]))
  }

  /** Python's order on a class list: any two entries are comparable
      strings in order (a list of at most one entry needs no comparison). */
  predicate ClassesSorted(s: seq<Option<string>>) {
    forall i, j :: 0 <= i < j < |s| ==> s[i].Some? && s[j].Some? && LessEq(s[i].value, s[j].value)
  }

  lemma {:induction false} WrapCount(t: seq<string>, x: string)
    ensures multiset(Wrap(t))[Some(x)] == multiset(t)[x]
    ensures multiset(Wrap(t))[None] == 0
    decreases |t|
  {
    if |t| > 0 {
      assert Wrap(t) == [Some(t[0])] + Wrap(t[1..]);
      assert t == [t[0]] + t[1..];
      WrapCount(t[1..], x);
    }
  }

  /** Wrapping relates permutations both ways. */
  lemma WrapPermutation(a: seq<string>, b: seq<string>)
    ensures multiset(a) == multiset(b) <==> multiset(Wrap(a)) == multiset(Wrap(b))
  {
    if multiset(a) == multiset(b) {
      forall o: Option<string>
        ensures multiset(Wrap(a))[o] == multiset(Wrap(b))[o]
      {
        WrapCount(a, o.GetOr(""));
        WrapCount(b, o.GetOr(""));
      }
    }
    if multiset(Wrap(a)) == multiset(Wrap(b)) {
      forall x: string
        ensures multiset(a)[x] == multiset(b)[x]
      {
        WrapCount(a, x);
        WrapCount(b, x);
      }
    }
  }

  /** `sorted` on a label column: a column of two or more entries holding
      a null label raises, since null is not ordered against anything. */
  function SortColumn(column: seq<Option<string>>): (r: Result<seq<Option<string>>, Error>)
    ensures r.Failure? <==> |column| >= 2 && !AllSome(column)
    ensures r.Failure? ==> r.error == UnorderableLabels
    ensures r.Success? ==> multiset(r.value) == multiset(column) && ClassesSorted(r.value)
  {
    if |column| < 2 then Success(column)
    else if !AllSome(column) then Failure(UnorderableLabels)
    else
      var sorted := SortStrings(Values(column));
      assert Wrap(Values(column)) == column;
      WrapPermutation(sorted, Values(column));
      Success(Wrap(sorted))
  }

  /** `get_classes(lang)`: the language's label column, sorted; an
      unrecognised language gives no classes. */
  function GetClasses(store: Store, lang: string): (r: Result<seq<Option<string>>, Error>)
    ensures ParseLang(lang).None? ==> r == Success([])
    ensures forall l: Lang :: lang == LangCode(l) ==>
              (r.Failure? <==> |store| >= 2 && exists i :: 0 <= i < |store| && store[i].context.labels.Get(l).None?)
    ensures r.Failure? ==> r.error == UnorderableLabels
    ensures forall l: Lang :: lang == LangCode(l) && r.Success? ==>
              multiset(r.value) == multiset(ClassColumn(store, l)) && ClassesSorted(r.value)
  {
    match ParseLang(lang)
    case None => Success([])
    case Some(l) =>
      var column := ClassColumn(store, l);
      assert forall i :: 0 <= i < |store| ==> column[i] == store[i].context.labels.Get(l);
      SortColumn(column)
  }

  lemma NullSurvivesPermutation(c1: seq<Option<string>>, c2: seq<Option<string>>)
    requires multiset(c1) == multiset(c2)
    ensures !AllSome(c1) ==> !AllSome(c2)
  {
    if !AllSome(c1) {
      var i :| 0 <= i < |c1| && c1[i].None?;
      assert c1[i] in multiset(c2);
    }
  }

  /** Sorting a column does not depend on the order of its entries. */
  lemma SortColumnIgnoresOrder(c1: seq<Option<string>>, c2: seq<Option<string>>)
    requires multiset(c1) == multiset(c2)
    ensures SortColumn(c1) == SortColumn(c2)
  {
    assert |c1| == |multiset(c1)| == |multiset(c2)| == |c2|;
    NullSurvivesPermutation(c1, c2);
    NullSurvivesPermutation(c2, c1);
    if |c1| == 1 {
      assert c1[0] in multiset(c2);
      assert c1 == [c1[0]] && c2 == [c2[0]];
    } else if |c1| >= 2 && AllSome(c1) {
      assert Wrap(Values(c1)) == c1 && Wrap(Values(c2)) == c2;
      WrapPermutation(Values(c1), Values(c2));
      SortedUnique(SortStrings(Values(c1)), SortStrings(Values(c2)));
    }
  }

  /** The class list does not depend on the order the rows come back in:
      stores whose label columns are permutations of each other get the
      same classes. */
  lemma ClassesIgnoreRowOrder(s1: Store, s2: Store, l: Lang)
    requires multiset(ClassColumn(s1, l)) == multiset(ClassColumn(s2, l))
    ensures GetClasses(s1, LangCode(l)) == GetClasses(s2, LangCode(l))
  {
    SortColumnIgnoresOrder(ClassColumn(s1, l), ClassColumn(s2, l));
  }

  /** `get_label(lang, context)`: the context's label in a recognised
      language, the empty string otherwise. */
  function GetLabel(lang: string, c: Context): (r: Option<string>)
    ensures forall l: Lang :: lang == LangCode(l) ==> r == c.labels.Get(l)
    ensures ParseLang(lang).None? ==> r == Some("")
  {
    match ParseLang(lang)
    case Some(l) => c.labels.Get(l)
    case None => Some("")
  }

  // ---------------------------------------------------------------------
  // Patterns and documents

  /** The texts of the phrases in language `lang`, in order. */
  function TextsIn(ps: seq<Phrase>, lang: string): seq<string>
    decreases |ps|
  {
    if |ps| == 0 then []
    else (if ps[0].language == lang then [ps[0].text] else []) + TextsIn(ps[1..], lang)
  }

  lemma {:induction false} TextsInMembers(ps: seq<Phrase>, lang: string, t: string)
    ensures t in TextsIn(ps, lang) <==> exists k :: 0 <= k < |ps| && ps[k].language == lang && ps[k].text == t
    decreases |ps|
  {
    if |ps| > 0 {
      TextsInMembers(ps[1..], lang, t);
      assert forall k :: 0 < k < |ps| ==> ps[1..][k - 1] == ps[k];
    }
  }

  lemma {:induction false} TextsInConcat(a: seq<Phrase>, b: seq<Phrase>, lang: string)
    ensures TextsIn(a + b, lang) == TextsIn(a, lang) + TextsIn(b, lang)
    decreases |a|
  {
    if |a| == 0 {
      assert a + b == b;
    } else {
      assert (a + b)[0] == a[0] && (a + b)[1..] == a[1..] + b;
      TextsInConcat(a[1..], b, lang);
    }
  }

  lemma {:induction false} TextsInPhrases(x: seq<string>, tag: string, lang: string)
    ensures TextsIn(Ingest.Phrases(x, tag), lang) == if tag == lang then x else []
    decreases |x|
  {
    if |x| > 0 {
      assert Ingest.Phrases(x, tag)[1..] == Ingest.Phrases(x[1..], tag);
      TextsInPhrases(x[1..], tag, lang);
      if tag == lang {
        assert x == [x[0]] + x[1..];
      }
    }
  }

  lemma TextsInThree(a: seq<string>, b: seq<string>, c: seq<string>, lang: string)
    ensures TextsIn(Ingest.Phrases(a, "en") + Ingest.Phrases(b, "fr") + Ingest.Phrases(c, "ar"), lang)
            == (if lang == "en" then a else []) + (if lang == "fr" then b else []) + (if lang == "ar" then c else [])
  {
    var pa := Ingest.Phrases(a, "en");
    var pb := Ingest.Phrases(b, "fr");
    var pc := Ingest.Phrases(c, "ar");
    TextsInConcat(pa + pb, pc, lang);
    TextsInConcat(pa, pb, lang);
    TextsInPhrases(a, "en", lang);
    TextsInPhrases(b, "fr", lang);
    TextsInPhrases(c, "ar", lang);
  }

  /** A context merged by the bulk seed offers each language exactly that
      language's record's patterns, in their file order. */
  lemma SeededPatternsByLanguage(store: Store, en: Ingest.SeedRecord, fr: Ingest.SeedRecord, ar: Ingest.SeedRecord)
    ensures var ps := Ingest.MergeSeed(store, en, fr, ar).patterns;
            && TextsIn(ps, "en") == en.patterns
            && TextsIn(ps, "fr") == fr.patterns
            && TextsIn(ps, "ar") == ar.patterns
  {
    Ingest.MergeSeedContent(store, en, fr, ar);
    TextsInThree(en.patterns, fr.patterns, ar.patterns, "en");
    TextsInThree(en.patterns, fr.patterns, ar.patterns, "fr");
    TextsInThree(en.patterns, fr.patterns, ar.patterns, "ar");
    assert en.patterns + [] + [] == en.patterns;
    assert [] + fr.patterns + [] == fr.patterns;
    assert [] + [] + ar.patterns == ar.patterns;
  }

  /** `get_patterns(lang)`: the pattern table filtered by language; the
      table holds each context's patterns in commit order. */
  function GetPatterns(store: Store, lang: string): seq<string>
    decreases |store|
  {
    if |store| == 0 then []
    else GetPatterns(store[..|store| - 1], lang) + TextsIn(store[|store| - 1].context.patterns, lang)
  }

  /** A text is a pattern of the language exactly when some stored context
      has a pattern with that text in that language. */
  lemma {:induction false} GetPatternsMembers(store: Store, lang: string, t: string)
    ensures t in GetPatterns(store, lang) <==>
              exists i, k :: 0 <= i < |store| && 0 <= k < |store[i].context.patterns|
                             && store[i].context.patterns[k].language == lang
                             && store[i].context.patterns[k].text == t
    decreases |store|
  {
    if |store| > 0 {
      var n := |store| - 1;
      var front := store[..n];
      GetPatternsMembers(front, lang, t);
      TextsInMembers(store[n].context.patterns, lang, t);
      assert forall i :: 0 <= i < n ==> front[i] == store[i];
    }
  }

  /** One training document: the tokens of a pattern and its context's label. */
  datatype Document = Document(tokens: seq<string>, tag: Option<string>)

  function ContextDocuments(c: Context, lang: string, tokenize: string -> seq<string>): seq<Document> {
    var texts := TextsIn(c.patterns, lang);
    seq(|texts|, k requires 0 <= k < |texts| => Document(tokenize(texts[k]), GetLabel(lang, c)))
  }

  /** The documents loop: every context, every pattern of the language. */
  function Documents(store: Store, lang: string, tokenize: string -> seq<string>): (r: seq<Document>)
    ensures |r| == |GetPatterns(store, lang)|
    decreases |store|
  {
    if |store| == 0 then []
    else Documents(store[..|store| - 1], lang, tokenize) + ContextDocuments(store[|store| - 1].context, lang, tokenize)
  }

  /** The documents walk the patterns `get_patterns` returns, one for one
      and in the same order. */
  lemma {:induction false} DocumentsFollowPatterns(store: Store, lang: string, tokenize: string -> seq<string>)
    ensures |Documents(store, lang, tokenize)| == |GetPatterns(store, lang)|
    ensures forall i :: 0 <= i < |Documents(store, lang, tokenize)| ==>
              Documents(store, lang, tokenize)[i].tokens == tokenize(GetPatterns(store, lang)[i])
    decreases |store|
  {
    if |store| > 0 {
      DocumentsFollowPatterns(store[..|store| - 1], lang, tokenize);
    }
  }

  /** Context `c` holds, at position `k`, the pattern `t` in language `lang`. */
  predicate OwnsPattern(store: Store, lang: string, c: int, k: int, t: string) {
    0 <= c < |store| && 0 <= k < |store[c].context.patterns|
    && store[c].context.patterns[k].language == lang
    && store[c].context.patterns[k].text == t
  }

  /** Document `i` carries the label of a context that owns its pattern. */
  lemma {:induction false} DocumentOwner(store: Store, lang: string, tokenize: string -> seq<string>, i: nat)
    requires i < |Documents(store, lang, tokenize)|
    ensures i < |GetPatterns(store, lang)|
    ensures exists c, k :: OwnsPattern(store, lang, c, k, GetPatterns(store, lang)[i])
                           && Documents(store, lang, tokenize)[i].tag == GetLabel(lang, store[c].context)
    decreases |store|
  {
    DocumentsFollowPatterns(store, lang, tokenize);
    var n := |store| - 1;
    var front := store[..n];
    DocumentsFollowPatterns(front, lang, tokenize);
    var before := Documents(front, lang, tokenize);
    var t := GetPatterns(store, lang)[i];
    if i < |before| {
      DocumentOwner(front, lang, tokenize, i);
      var c, k :| OwnsPattern(front, lang, c, k, GetPatterns(front, lang)[i])
                  && before[i].tag == GetLabel(lang, front[c].context);
      assert front[c] == store[c];
      assert GetPatterns(store, lang)[i] == GetPatterns(front, lang)[i];
      assert OwnsPattern(store, lang, c, k, t);
      assert Documents(store, lang, tokenize)[i] == before[i];
    } else {
      var texts := TextsIn(store[n].context.patterns, lang);
      var m := i - |before|;
      assert t == texts[m];
      TextsInMembers(store[n].context.patterns, lang, t);
      var k :| 0 <= k < |store[n].context.patterns| && store[n].context.patterns[k].language == lang
               && store[n].context.patterns[k].text == t;
      assert OwnsPattern(store, lang, n, k, t);
      assert Documents(store, lang, tokenize)[i].tag == GetLabel(lang, store[n].context);
    }
  }

  /** Each document pairs its pattern's tokens with the label of a context
      that owns that pattern in the language. */
  lemma DocumentsCarryOwnersLabel(store: Store, lang: string, tokenize: string -> seq<string>)
    ensures |Documents(store, lang, tokenize)| == |GetPatterns(store, lang)|
    ensures forall i :: 0 <= i < |Documents(store, lang, tokenize)| ==>
              && Documents(store, lang, tokenize)[i].tokens == tokenize(GetPatterns(store, lang)[i])
              && exists c, k :: OwnsPattern(store, lang, c, k, GetPatterns(store, lang)[i])
                                && Documents(store, lang, tokenize)[i].tag == GetLabel(lang, store[c].context)
  {
    DocumentsFollowPatterns(store, lang, tokenize);
    forall i | 0 <= i < |Documents(store, lang, tokenize)|
      ensures exists c, k :: OwnsPattern(store, lang, c, k, GetPatterns(store, lang)[i])
                             && Documents(store, lang, tokenize)[i].tag == GetLabel(lang, store[c].context)
    {
      DocumentOwner(store, lang, tokenize, i);
    }
  }

  /** Committing one more context appends its documents and patterns. */
  lemma DocumentsSnoc(front: Store, x: Contribution, lang: string, tokenize: string -> seq<string>)
    ensures Documents(front + [x], lang, tokenize) == Documents(front, lang, tokenize) + ContextDocuments(x.context, lang, tokenize)
    ensures GetPatterns(front + [x], lang) == GetPatterns(front, lang) + TextsIn(x.context.patterns, lang)
  {
    assert (front + [x])[..|front|] == front;
  }

  /** Splits off the last context of a non-empty second store. */
  lemma SplitLast(a: Store, b: Store)
    requires |b| > 0
    ensures b == b[..|b| - 1] + [b[|b| - 1]]
    ensures a + b == (a + b[..|b| - 1]) + [b[|b| - 1]]
  {
  }

  /** Concatenation is associative. */
  lemma AppendAssoc<T>(x: seq<T>, y: seq<T>, z: seq<T>)
    ensures (x + y) + z == x + (y + z)
  {
  }

  /** The patterns of two stores laid end to end are those of the first
      followed by those of the second. */
  lemma {:induction false} PatternsAppend(a: Store, b: Store, lang: string)
    ensures GetPatterns(a + b, lang) == GetPatterns(a, lang) + GetPatterns(b, lang)
    decreases |b|
  {
    if |b| == 0 {
      assert a + b == a;
    } else {
      var front, x := b[..|b| - 1], b[|b| - 1];
      SplitLast(a, b);
      PatternsAppend(a, front, lang);
      assert (a + front + [x])[..|a + front|] == a + front;
      AppendAssoc(GetPatterns(a, lang), GetPatterns(front, lang), TextsIn(x.context.patterns, lang));
    }
  }

  /** The documents of two stores laid end to end are those of the first
      followed by those of the second. */
  lemma {:induction false} DocumentsAppend(a: Store, b: Store, lang: string, tokenize: string -> seq<string>)
    ensures Documents(a + b, lang, tokenize) == Documents(a, lang, tokenize) + Documents(b, lang, tokenize)
    decreases |b|
  {
    if |b| == 0 {
      assert a + b == a;
    } else {
      var front, x := b[..|b| - 1], b[|b| - 1];
      SplitLast(a, b);
      DocumentsAppend(a, front, lang, tokenize);
      DocumentsSnoc(a + front, x, lang, tokenize);
      DocumentsSnoc(front, x, lang, tokenize);
      AppendAssoc(Documents(a, lang, tokenize), Documents(front, lang, tokenize), ContextDocuments(x.context, lang, tokenize));
    }
  }

  /** The documents of context `c` follow those of the contexts before it:
      its `m`-th pattern in the language is document `o + m`, where `o`
      counts the patterns of the earlier contexts, and that document pairs
      the pattern's tokens with the label of `c` itself. */
  lemma DocumentsByContext(store: Store, lang: string, tokenize: string -> seq<string>, c: nat, m: nat)
    requires c < |store| && m < |TextsIn(store[c].context.patterns, lang)|
    ensures var o := |GetPatterns(store[..c], lang)|;
            && o + m < |Documents(store, lang, tokenize)| && o + m < |GetPatterns(store, lang)|
            && GetPatterns(store, lang)[o + m] == TextsIn(store[c].context.patterns, lang)[m]
            && Documents(store, lang, tokenize)[o + m]
               == Document(tokenize(TextsIn(store[c].context.patterns, lang)[m]), GetLabel(lang, store[c].context))
  {
    var before, rest := store[..c], store[c + 1..];
    assert store == before + ([store[c]] + rest);
    DocumentsAppend(before, [store[c]] + rest, lang, tokenize);
    DocumentsAppend([store[c]], rest, lang, tokenize);
    PatternsAppend(before, [store[c]] + rest, lang);
    PatternsAppend([store[c]], rest, lang);
    DocumentsSnoc([], store[c], lang, tokenize);
    assert [] + [store[c]] == [store[c]];
  }

  /** Every document carries the label of some stored context. */
  lemma {:induction false} DocumentLabelsInColumn(store: Store, l: Lang, tokenize: string -> seq<string>)
    ensures forall i :: 0 <= i < |Documents(store, LangCode(l), tokenize)| ==>
              Documents(store, LangCode(l), tokenize)[i].tag in ClassColumn(store, l)
    decreases |store|
  {
    if |store| > 0 {
      var n := |store| - 1;
      DocumentLabelsInColumn(store[..n], l, tokenize);
      var front := Documents(store[..n], LangCode(l), tokenize);
      var docs := Documents(store, LangCode(l), tokenize);
      forall i | 0 <= i < |docs|
        ensures docs[i].tag in ClassColumn(store, l)
      {
        if i < |front| {
          var p :| 0 <= p < |store[..n]| && ClassColumn(store[..n], l)[p] == front[i].tag;
          assert ClassColumn(store, l)[p] == front[i].tag;
        } else {
          assert docs[i].tag == ClassColumn(store, l)[n];
        }
      }
    }
  }

  // ---------------------------------------------------------------------
  // Vocabulary

  /** `string.punctuation`. */
  const Punctuation: string := "!\"#$%&'()*+,-./:;<=>?@[\\]^_`{|}~"

  /** `IGNORED_LETTERS`: each punctuation character as a one-letter string. */
  function IgnoredLetters(): seq<string> {
    seq(|Punctuation|, i requires 0 <= i < |Punctuation| => [Punctuation[i]])
  }

  /** A token is ignored exactly when it is a single punctuation character;
      a longer token made of punctuation, such as `...`, is kept. */
  lemma IgnoredLettersAreSinglePunctuation(t: string)
    ensures |IgnoredLetters()| == 32
    ensures t in IgnoredLetters() <==> |t| == 1 && t[0] in Punctuation
  {
    if |t| == 1 && t[0] in Punctuation {
      var i :| 0 <= i < |Punctuation| && Punctuation[i] == t[0];
      assert t == [t[0]] == IgnoredLetters()[i];
    }
  }

  /** `words.extend(nltk.word_tokenize(pattern))` over the patterns. */
  function Tokens(patterns: seq<string>, tokenize: string -> seq<string>): seq<string>
    decreases |patterns|
  {
    if |patterns| == 0 then []
    else Tokens(patterns[..|patterns| - 1], tokenize) + tokenize(patterns[|patterns| - 1])
  }

  lemma {:induction false} TokensMembers(patterns: seq<string>, tokenize: string -> seq<string>, t: string)
    ensures t in Tokens(patterns, tokenize) <==> exists i :: 0 <= i < |patterns| && t in tokenize(patterns[i])
    decreases |patterns|
  {
    if |patterns| > 0 {
      var n := |patterns| - 1;
      TokensMembers(patterns[..n], tokenize, t);
      assert forall i :: 0 <= i < n ==> patterns[..n][i] == patterns[i];
    }
  }

  /** The lemmas of the tokens that are not ignored letters. */
  function KeptLemmas(tokens: seq<string>, lemmatize: string -> string): seq<string>
    decreases |tokens|
  {
    if |tokens| == 0 then []
    else (if tokens[0] in IgnoredLetters() then [] else [lemmatize(tokens[0])]) + KeptLemmas(tokens[1..], lemmatize)
  }

  lemma {:induction false} KeptLemmasMembers(tokens: seq<string>, lemmatize: string -> string, w: string)
    ensures w in KeptLemmas(tokens, lemmatize) <==>
              exists k :: 0 <= k < |tokens| && tokens[k] !in IgnoredLetters() && lemmatize(tokens[k]) == w
    decreases |tokens|
  {
    if |tokens| > 0 {
      KeptLemmasMembers(tokens[1..], lemmatize, w);
      assert forall k :: 0 < k < |tokens| ==> tokens[1..][k - 1] == tokens[k];
    }
  }

  /** `get_words(patterns)`: `sorted(set(...))` of the kept lemmas. */
  function GetWords(patterns: seq<string>, tokenize: string -> seq<string>, lemmatize: string -> string): (r: seq<string>)
    ensures StrictlySorted(r)
  {
    SortDistinct(KeptLemmas(Tokens(patterns, tokenize), lemmatize))
  }

  /** The vocabulary is strictly increasing, so free of repeats, and a word
      is in it exactly when it is the lemma of a non-ignored token of some
      pattern. */
  lemma VocabularyMembers(patterns: seq<string>, tokenize: string -> seq<string>, lemmatize: string -> string, w: string)
    ensures StrictlySorted(GetWords(patterns, tokenize, lemmatize))
    ensures Distinct(GetWords(patterns, tokenize, lemmatize))
    ensures w in GetWords(patterns, tokenize, lemmatize) <==>
              exists i, t :: 0 <= i < |patterns| && t in tokenize(patterns[i]) && t !in IgnoredLetters() && lemmatize(t) == w
  {
    var vocabulary := GetWords(patterns, tokenize, lemmatize);
    forall i, j | 0 <= i < j < |vocabulary|
      ensures vocabulary[i] != vocabulary[j]
    {
      LessIrreflexive(vocabulary[i]);
    }
    var tokens := Tokens(patterns, tokenize);
    KeptLemmasMembers(tokens, lemmatize, w);
    if w in GetWords(patterns, tokenize, lemmatize) {
      var k :| 0 <= k < |tokens| && tokens[k] !in IgnoredLetters() && lemmatize(tokens[k]) == w;
      TokensMembers(patterns, tokenize, tokens[k]);
    }
    if exists i, t :: 0 <= i < |patterns| && t in tokenize(patterns[i]) && t !in IgnoredLetters() && lemmatize(t) == w {
      var i, t :| 0 <= i < |patterns| && t in tokenize(patterns[i]) && t !in IgnoredLetters() && lemmatize(t) == w;
      TokensMembers(patterns, tokenize, t);
      var k :| 0 <= k < |tokens| && tokens[k] == t;
    }
  }

  /** The vocabulary is the only strictly increasing list of its words, so
      it does not depend on the order Python walks the set in. */
  lemma VocabularyIsUnique(patterns: seq<string>, tokenize: string -> seq<string>, lemmatize: string -> string, v: seq<string>)
    requires StrictlySorted(v)
    requires forall w :: w in v <==> w in KeptLemmas(Tokens(patterns, tokenize), lemmatize)
    ensures v == GetWords(patterns, tokenize, lemmatize)
  {
    StrictlySortedUnique(v, GetWords(patterns, tokenize, lemmatize));
  }

  // ---------------------------------------------------------------------
  // Encoding

  /** The number of ones in a vector. */
  function Ones(v: seq<int>): nat
    decreases |v|
  {
    if |v| == 0 then 0 else (if v[0] == 1 then 1 else 0) + Ones(v[1..])
  }

  /** The bag-of-words reference: one entry per vocabulary word, 1 when the
      word is among the document's tokens. */
  function Presence(words: seq<string>, tokens: seq<string>): seq<int> {
    seq(|words|, i requires 0 <= i < |words| => if words[i] in tokens then 1 else 0)
  }

  /** With a vocabulary free of repeats, the ones of the bag-of-words count
      the vocabulary words the document contains. */
  lemma {:induction false} PresenceCountsWords(words: seq<string>, tokens: seq<string>)
    requires Distinct(words)
    ensures Ones(Presence(words, tokens)) == |set w | w in words && w in tokens|
    decreases |words|
  {
    if |words| > 0 {
      var rest := words[1..];
      assert Presence(words, tokens)[1..] == Presence(rest, tokens);
      PresenceCountsWords(rest, tokens);
      var s := set w | w in words && w in tokens;
      var s' := set w | w in rest && w in tokens;
      assert words[0] !in rest;
      if words[0] in tokens {
        assert s == s' + {words[0]};
      } else {
        assert s == s';
      }
    }
  }

  lemma TokensOfOne(p: string, tokenize: string -> seq<string>)
    ensures Tokens([p], tokenize) == tokenize(p)
  {
    assert [p][..0] == [];
  }

  lemma KeptLemmasOfOne(t: string, lemmatize: string -> string)
    requires |t| != 1
    ensures KeptLemmas([t], lemmatize) == [lemmatize(t)]
  {
    IgnoredLettersAreSinglePunctuation(t);
    assert [t][1..] == [];
  }

  lemma SortDistinctOfOne(w: string)
    ensures SortDistinct([w]) == [w]
  {
    assert [w][1..] == [];
  }

  /** A tokenizer that keeps each pattern whole, and a lemmatizer that only
      maps the plural "cats" to "cat": enough to exhibit the mismatch below. */
  function WholePattern(p: string): seq<string> {
    [p]
  }

  function Singular(w: string): string {
    if w == "cats" then "cat" else w
  }

  /** The vocabulary holds lemmas but each document is encoded from its raw
      tokens, so a word seen only in an inflected form never lights its own
      entry: the pattern "cats" yields the vocabulary ["cat"] and the
      encoding [0]. */
  lemma RawTokensMissTheirLemmas()
    ensures GetWords(["cats"], WholePattern, Singular) == ["cat"]
    ensures Presence(GetWords(["cats"], WholePattern, Singular), WholePattern("cats")) == [0]
  {
    TokensOfOne("cats", WholePattern);
    KeptLemmasOfOne("cats", Singular);
    SortDistinctOfOne("cat");
    assert "cat" != "cats";
  }

  /** `list.index`: the first position holding `x`. */
  function IndexOf<T(==)>(s: seq<T>, x: T): (i: nat)
    requires x in s
    ensures i < |s| && s[i] == x
    ensures forall j :: 0 <= j < i ==> s[j] != x
    decreases |s|
  {
    if s[0] == x then 0 else 1 + IndexOf(s[1..], x)
  }

  /** The loop that fills `input_representation`: for each vocabulary word
      found among the tokens, the entry at `words.index(word)` becomes 1.
      With repeated words only the first position of each is set. */
  method EncodeInput(words: seq<string>, tokens: seq<string>) returns (v: seq<int>)
    ensures |v| == |words|
    ensures forall i :: 0 <= i < |v| ==>
              v[i] == (if words[i] in tokens && IndexOf(words, words[i]) == i then 1 else 0)
    ensures Distinct(words) ==> v == Presence(words, tokens)
  {
    v := seq(|words|, _ => 0);
    for n := 0 to |words|
      invariant |v| == |words|
      invariant forall i :: 0 <= i < |v| ==>
                  v[i] == (if i < n && words[i] in tokens && IndexOf(words, words[i]) == i then 1 else 0)
    {
      if words[n] in tokens {
        var j := IndexOf(words, words[n]);
        v := v[j := 1];
      }
    }
    if Distinct(words) {
      forall i | 0 <= i < |words|
        ensures IndexOf(words, words[i]) == i
      {
      }
    }
  }

  function OneHot(n: nat, k: nat): seq<int> {
    seq(n, i requires 0 <= i < n => if i == k then 1 else 0)
  }

  lemma {:induction false} OneHotOnes(n: nat, k: nat)
    ensures Ones(OneHot(n, k)) == if k < n then 1 else 0
    decreases n
  {
    if n > 0 {
      if k == 0 {
        assert OneHot(n, k)[1..] == OneHot(n - 1, n);
      } else {
        assert OneHot(n, k)[1..] == OneHot(n - 1, k - 1);
      }
      OneHotOnes(n - 1, if k == 0 then n else k - 1);
    }
  }

  /** `output_representation`: one-hot at `classes.index(label)`; a label
      missing from the classes raises. */
  function OutputVector(classes: seq<Option<string>>, tag: Option<string>): (r: Result<seq<int>, Error>)
    ensures r.Success? <==> tag in classes
    ensures r.Failure? ==> r.error == LabelNotInClasses
    ensures r.Success? ==>
              && |r.value| == |classes|
              && Ones(r.value) == 1
              && forall i :: 0 <= i < |r.value| ==> (r.value[i] == 1 <==> i == IndexOf(classes, tag)) && 0 <= r.value[i] <= 1
  {
    if tag in classes then
      OneHotOnes(|classes|, IndexOf(classes, tag));
      Success(OneHot(|classes|, IndexOf(classes, tag)))
    else Failure(LabelNotInClasses)
  }

  /** One row of the training matrix. */
  datatype Example = Example(input: seq<int>, output: seq<int>)

  /** The training loop over the documents, stopped by the first label that
      is not a class. */
  function EncodeDocuments(docs: seq<Document>, words: seq<string>, classes: seq<Option<string>>)
    : (r: Result<seq<Example>, Error>)
    ensures r.Success? <==> forall i :: 0 <= i < |docs| ==> docs[i].tag in classes
    ensures r.Failure? ==> r.error == LabelNotInClasses
    ensures r.Success? ==> |r.value| == |docs|
    ensures r.Success? ==> forall i :: 0 <= i < |docs| ==>
              r.value[i].input == Presence(words, docs[i].tokens)
              && OutputVector(classes, docs[i].tag) == Success(r.value[i].output)
    decreases |docs|
  {
    if |docs| == 0 then Success([])
    else
      var output :- OutputVector(classes, docs[0].tag);
      var rest :- EncodeDocuments(docs[1..], words, classes);
      assert forall i :: 0 < i < |docs| ==> docs[1..][i - 1] == docs[i];
      Success([Example(Presence(words, docs[0].tokens), output)] + rest)
  }

  // ---------------------------------------------------------------------
  // Shuffle and training set

  function Swap<T(==)>(s: seq<T>, i: nat, j: nat): (r: seq<T>)
    requires i < |s| && j < |s|
    ensures |r| == |s| && multiset(r) == multiset(s)
    ensures forall k :: 0 <= k < |s| && k != i && k != j ==> r[k] == s[k]
  {
    s[i := s[j]][j := s[i]]
  }

  /** `random.shuffle` on the first `m` entries (Fisher-Yates from the
      back); `draws(i) % (i + 1)` stands for `randbelow(i + 1)`. */
  function Shuffle<T(==)>(s: seq<T>, draws: nat -> nat, m: nat): (r: seq<T>)
    requires m <= |s|
    ensures |r| == |s| && multiset(r) == multiset(s)
    ensures forall k :: m <= k < |s| ==> r[k] == s[k]
    decreases m
  {
    if m <= 1 then s
    else Shuffle(Swap(s, m - 1, draws(m - 1) % m), draws, m - 1)
  }

  /** What training is given: the vocabulary and classes that are pickled,
      and the shuffled rows, whose columns are `train_x` and `train_y`. */
  datatype Training = Training(words: seq<string>, classes: seq<Option<string>>, examples: seq<Example>) {
    function TrainX(): seq<seq<int>> {
      seq(|examples|, i requires 0 <= i < |examples| => examples[i].input)
    }

    function TrainY(): seq<seq<int>> {
      seq(|examples|, i requires 0 <= i < |examples| => examples[i].output)
    }
  }

  /** `train_x` and `train_y` are parallel: row `i` of the shuffled training
      set is exactly the pair of their `i`-th entries. */
  lemma ColumnsParallel(t: Training)
    ensures |t.TrainX()| == |t.TrainY()| == |t.examples|
    ensures forall i :: 0 <= i < |t.examples| ==> Example(t.TrainX()[i], t.TrainY()[i]) == t.examples[i]
  {
  }

  /** The data preparation of `train_model(lang, ...)`. An empty training
      set fails when its columns are taken. */
  function PrepareTraining(store: Store, lang: string, tokenize: string -> seq<string>,
                           lemmatize: string -> string, draws: nat -> nat): (r: Result<Training, Error>)
    ensures var docs := Documents(store, lang, tokenize);
            r.Success? <==> GetClasses(store, lang).Success? && |docs| > 0
                            && forall i :: 0 <= i < |docs| ==> docs[i].tag in GetClasses(store, lang).value
    ensures r.Success? ==>
              && r.value.classes == GetClasses(store, lang).value
              && r.value.words == GetWords(GetPatterns(store, lang), tokenize, lemmatize)
              && multiset(r.value.examples)
                 == multiset(EncodeDocuments(Documents(store, lang, tokenize), r.value.words, r.value.classes).value)
    ensures var docs := Documents(store, lang, tokenize);
            r.Failure? ==>
              r.error == (if GetClasses(store, lang).Failure? then UnorderableLabels
                          else if exists i :: 0 <= i < |docs| && docs[i].tag !in GetClasses(store, lang).value
                          then LabelNotInClasses
                          else EmptyTrainingSet)
  {
    var classes :- GetClasses(store, lang);
    var words := GetWords(GetPatterns(store, lang), tokenize, lemmatize);
    var examples :- EncodeDocuments(Documents(store, lang, tokenize), words, classes);
    var shuffled := Shuffle(examples, draws, |examples|);
    if |shuffled| == 0 then Failure(EmptyTrainingSet)
    else Success(Training(words, classes, shuffled))
  }

  /** A prepared training set has one row per pattern of the language; each
      row's input is as long as the vocabulary and its output is one-hot
      over the classes. */
  lemma TrainingRows(store: Store, lang: string, tokenize: string -> seq<string>,
                     lemmatize: string -> string, draws: nat -> nat)
    ensures var r := PrepareTraining(store, lang, tokenize, lemmatize, draws);
            r.Success? ==>
              && |r.value.examples| == |GetPatterns(store, lang)| > 0
              && forall i :: 0 <= i < |r.value.examples| ==>
                   && |r.value.examples[i].input| == |r.value.words|
                   && |r.value.examples[i].output| == |r.value.classes|
                   && Ones(r.value.examples[i].output) == 1
  {
    var r := PrepareTraining(store, lang, tokenize, lemmatize, draws);
    if r.Failure? {
      return;
    }
    var t := r.value;
    var docs := Documents(store, lang, tokenize);
    var examples := EncodeDocuments(docs, t.words, t.classes).value;
    DocumentsFollowPatterns(store, lang, tokenize);
    assert |t.examples| == |multiset(t.examples)| == |multiset(examples)| == |docs|;
    forall i | 0 <= i < |t.examples|
      ensures |t.examples[i].input| == |t.words|
      ensures |t.examples[i].output| == |t.classes|
      ensures Ones(t.examples[i].output) == 1
    {
      assert t.examples[i] in multiset(examples);
      var k :| 0 <= k < |examples| && examples[k] == t.examples[i];
    }
  }

  /** When every context has a label in the language and the language has
      patterns, preparation succeeds. */
  lemma LabelledStoreTrains(store: Store, l: Lang, tokenize: string -> seq<string>,
                            lemmatize: string -> string, draws: nat -> nat)
    requires forall i :: 0 <= i < |store| ==> store[i].context.labels.Get(l).Some?
    requires |GetPatterns(store, LangCode(l))| > 0
    ensures PrepareTraining(store, LangCode(l), tokenize, lemmatize, draws).Success?
  {
    var lang := LangCode(l);
    assert ParseLang(lang) == Some(l);
    var classes := GetClasses(store, lang);
    assert classes.Success?;
    DocumentsFollowPatterns(store, lang, tokenize);
    DocumentLabelsInColumn(store, l, tokenize);
    var docs := Documents(store, lang, tokenize);
    forall i | 0 <= i < |docs|
      ensures docs[i].tag in classes.value
    {
      assert docs[i].tag in multiset(ClassColumn(store, l));
    }
  }

  /** Training in a language the store has no label column for always
      fails: with patterns, their empty-string label is not a class. */
  lemma UnsupportedLanguageCannotTrain(store: Store, lang: string, tokenize: string -> seq<string>,
                                       lemmatize: string -> string, draws: nat -> nat)
    requires ParseLang(lang).None?
    ensures PrepareTraining(store, lang, tokenize, lemmatize, draws).Failure?
  {
    var docs := Documents(store, lang, tokenize);
    if |docs| > 0 {
      assert docs[0].tag !in [];
    }
  }

  /** Training on a freshly initialised database succeeds in each of the
      three languages that has patterns. */
  lemma InitializedDatabaseTrains(db: Ingest.Db, rolesJson: seq<Value>, adminName: string,
                                  en: seq<Ingest.SeedRecord>, fr: seq<Ingest.SeedRecord>, ar: seq<Ingest.SeedRecord>,
                                  l: Lang, tokenize: string -> seq<string>, lemmatize: string -> string, draws: nat -> nat)
    requires |db.store| == 0
    ensures var s := Ingest.InitializeDatabase(db, rolesJson, adminName, en, fr, ar).state.store;
            |GetPatterns(s, LangCode(l))| > 0 ==> PrepareTraining(s, LangCode(l), tokenize, lemmatize, draws).Success?
  {
    var s := Ingest.InitializeDatabase(db, rolesJson, adminName, en, fr, ar).state.store;
    Ingest.InitializedGraphIsWellFormed(db, rolesJson, adminName, en, fr, ar);
    if |GetPatterns(s, LangCode(l))| > 0 {
      LabelledStoreTrains(s, l, tokenize, lemmatize, draws);
    }
  }
}
