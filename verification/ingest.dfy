/** Seeding the knowledge graph from per-language intent records:
    `save_data` (one language) and the bulk multilingual merge of
    `initialize_database`, both as folds over the store that commit one
    record at a time, walking the records from the last index down. */
module Ingest {
  import opened Wrappers
  import opened Models

  /** The fields only the first (English) record carries in bulk seeding. */
  datatype Meta = Meta(title: string, description: Option<string>, date: Date)

  /** One intent of a seed file. `proposition` is already normalised: a null
      (or NaN) proposition is `None`, every other value is kept as it is. */
  datatype SeedRecord = SeedRecord(
    code: string,
    tag: string,
    proposition: Option<string>,
    patterns: seq<string>,
    responses: seq<string>,
    to: seq<string>,
    meta: Option<Meta>)

  /** `[Pattern(label=t, language=lang) for t in texts]`, likewise for responses. */
  function Phrases(texts: seq<string>, lang: string): seq<Phrase> {
    seq(|texts|, i requires 0 <= i < |texts| => Phrase(None, texts[i], lang))
  }

  // ---------------------------------------------------------------------
  // Resolving `to` codes against the store

  /** save_data's loop over `to`: each code found in the store adds its
      context, and a target named twice is added twice. */
  function ResolveAll(store: Store, codes: seq<string>): (r: seq<nat>)
    ensures |r| <= |codes|
    ensures forall k :: 0 <= k < |r| ==> r[k] < |store|
  {
    if |codes| == 0 then []
    else
      (match FindCode(store, codes[0]) case Some(j) => [j] case None => [])
      + ResolveAll(store, codes[1..])
  }

  /** A target is resolved exactly when one of the codes names it. */
  lemma {:induction false} ResolveAllMembers(store: Store, codes: seq<string>, j: nat)
    ensures j in ResolveAll(store, codes) <==> exists k :: 0 <= k < |codes| && FindCode(store, codes[k]) == Some(j)
    decreases |codes|
  {
    if |codes| > 0 {
      ResolveAllMembers(store, codes[1..], j);
      assert forall k :: 0 <= k < |codes[1..]| ==> codes[1..][k] == codes[k + 1];
      if FindCode(store, codes[0]) == Some(j) {
        assert j in ResolveAll(store, codes);
      }
    }
  }

  /** The lookup result of each `to` code, in order. */
  function Lookups(store: Store, codes: seq<string>): seq<Option<nat>> {
    seq(|codes|, k requires 0 <= k < |codes| => FindCode(store, codes[k]))
  }

  /** The found values among lookup results, in order. */
  function Found(xs: seq<Option<nat>>): seq<nat>
    decreases |xs|
  {
    if |xs| == 0 then []
    else (if xs[0].Some? then [xs[0].value] else []) + Found(xs[1..])
  }

  lemma {:induction false} FoundCounts(xs: seq<Option<nat>>, j: nat)
    ensures multiset(Found(xs))[j] == multiset(xs)[Some(j)]
    decreases |xs|
  {
    if |xs| > 0 {
      FoundCounts(xs[1..], j);
      assert xs == [xs[0]] + xs[1..];
    }
  }

  lemma {:induction false} ResolveAllIsFound(store: Store, codes: seq<string>)
    ensures ResolveAll(store, codes) == Found(Lookups(store, codes))
    decreases |codes|
  {
    if |codes| > 0 {
      ResolveAllIsFound(store, codes[1..]);
      assert Lookups(store, codes)[1..] == Lookups(store, codes[1..]);
    }
  }

  /** Each context appears in save_data's target list once for every `to`
      code that finds it, so a code listed twice links its target twice. */
  lemma ResolveAllCounts(store: Store, codes: seq<string>, j: nat)
    ensures multiset(ResolveAll(store, codes))[j] == multiset(Lookups(store, codes))[Some(j)]
  {
    ResolveAllIsFound(store, codes);
    FoundCounts(Lookups(store, codes), j);
  }

  lemma {:induction false} ResolveAllConcat(store: Store, a: seq<string>, b: seq<string>)
    ensures ResolveAll(store, a + b) == ResolveAll(store, a) + ResolveAll(store, b)
    decreases |a|
  {
    if |a| > 0 {
      var head := match FindCode(store, a[0]) case Some(j) => [j] case None => [];
      assert (a + b)[0] == a[0] && (a + b)[1..] == a[1..] + b;
      assert ResolveAll(store, a + b) == head + ResolveAll(store, a[1..] + b);
      ResolveAllConcat(store, a[1..], b);
    } else {
      assert a + b == b;
    }
  }

  /** The bulk loop over `to`: a found context is added unless it is already
      among the related contexts gathered so far. */
  function Link(store: Store, acc: seq<nat>, codes: seq<string>): (r: seq<nat>)
    ensures |acc| <= |r| && r[..|acc|] == acc
    ensures Distinct(acc) ==> Distinct(r)
    ensures (forall k :: 0 <= k < |acc| ==> acc[k] < |store|) ==> forall k :: 0 <= k < |r| ==> r[k] < |store|
    decreases |codes|
  {
    if |codes| == 0 then acc
    else
      var next := match FindCode(store, codes[0])
        case Some(j) => if j in acc then acc else acc + [j]
        case None => acc;
      Link(store, next, codes[1..])
  }

  /** The linked targets are the gathered ones plus every target a code names. */
  lemma {:induction false} LinkMembers(store: Store, acc: seq<nat>, codes: seq<string>, j: nat)
    ensures j in Link(store, acc, codes) <==>
              j in acc || exists k :: 0 <= k < |codes| && FindCode(store, codes[k]) == Some(j)
    decreases |codes|
  {
    if |codes| > 0 {
      var next := match FindCode(store, codes[0])
        case Some(i) => if i in acc then acc else acc + [i]
        case None => acc;
      LinkMembers(store, next, codes[1..], j);
      assert forall k :: 0 <= k < |codes[1..]| ==> codes[1..][k] == codes[k + 1];
      assert j in next <==> j in acc || FindCode(store, codes[0]) == Some(j);
    }
  }

  /** Keeps the first occurrence of each element of `s`, after those of `acc`. */
  function DedupInto(acc: seq<nat>, s: seq<nat>): seq<nat>
    decreases |s|
  {
    if |s| == 0 then acc
    else DedupInto(if s[0] in acc then acc else acc + [s[0]], s[1..])
  }

  /** The bulk loop keeps exactly save_data's targets, duplicates removed,
      in first-seen order. */
  lemma {:induction false} LinkIsDedupedResolve(store: Store, acc: seq<nat>, codes: seq<string>)
    ensures Link(store, acc, codes) == DedupInto(acc, ResolveAll(store, codes))
    decreases |codes|
  {
    if |codes| > 0 {
      var rest := ResolveAll(store, codes[1..]);
      LinkIsDedupedResolve(store, if FindCode(store, codes[0]).Some? && FindCode(store, codes[0]).value !in acc
                                  then acc + [FindCode(store, codes[0]).value] else acc, codes[1..]);
      match FindCode(store, codes[0])
      case None =>
        assert ResolveAll(store, codes) == rest;
      case Some(j) =>
        assert ResolveAll(store, codes) == [j] + rest;
        assert ([j] + rest)[1..] == rest;
    }
  }

  /** Running the loop over several lists is running it over their concatenation. */
  lemma {:induction false} LinkConcat(store: Store, acc: seq<nat>, a: seq<string>, b: seq<string>)
    ensures Link(store, Link(store, acc, a), b) == Link(store, acc, a + b)
    decreases |a|
  {
    if |a| == 0 {
      assert a + b == b;
    } else {
      assert (a + b)[0] == a[0] && (a + b)[1..] == a[1..] + b;
      var next := match FindCode(store, a[0])
        case Some(j) => if j in acc then acc else acc + [j]
        case None => acc;
      LinkConcat(store, next, a[1..], b);
    }
  }

  // ---------------------------------------------------------------------
  // Bulk merge of the en/fr/ar records at one index

  const NoLabels: PerLang<Option<string>> := PerLang(None, None, None)

  /** The empty `context` dict and lists the bulk loop starts each index with. */
  const Blank: Context := Context("", NoLabels, NoLabels, [], [], [])

  /** One pass of the loop over the language collections: the code is
      overwritten, this language's label and proposition are set, its
      patterns and responses are appended, and its `to` codes are linked. */
  function Absorb(store: Store, c: Context, lang: Lang, rec: SeedRecord): Context {
    c.(code := rec.code,
       labels := c.labels.Set(lang, Some(rec.tag)),
       propositions := c.propositions.Set(lang, rec.proposition),
       patterns := c.patterns + Phrases(rec.patterns, LangCode(lang)),
       responses := c.responses + Phrases(rec.responses, LangCode(lang)),
       related := Link(store, c.related, rec.to))
  }

  /** All `to` codes of one index, in language order. */
  function AllTo(en: SeedRecord, fr: SeedRecord, ar: SeedRecord): seq<string> {
    en.to + fr.to + ar.to
  }

  /** The merged context of one index. */
  function MergeSeed(store: Store, en: SeedRecord, fr: SeedRecord, ar: SeedRecord): Context {
    Absorb(store, Absorb(store, Absorb(store, Blank, En, en), Fr, fr), Ar, ar)
  }

  /** The merged context takes the last (Arabic) code, one label and one
      proposition per language, and the phrases of the three records in
      language order, each tagged with its language. */
  lemma MergeSeedContent(store: Store, en: SeedRecord, fr: SeedRecord, ar: SeedRecord)
    ensures var c := MergeSeed(store, en, fr, ar);
            && c.code == ar.code
            && c.labels == PerLang(Some(en.tag), Some(fr.tag), Some(ar.tag))
            && c.propositions == PerLang(en.proposition, fr.proposition, ar.proposition)
            && c.patterns == Phrases(en.patterns, "en") + Phrases(fr.patterns, "fr") + Phrases(ar.patterns, "ar")
            && c.responses == Phrases(en.responses, "en") + Phrases(fr.responses, "fr") + Phrases(ar.responses, "ar")
            && |c.patterns| == |en.patterns| + |fr.patterns| + |ar.patterns|
            && |c.responses| == |en.responses| + |fr.responses| + |ar.responses|
  {
    var c1 := Absorb(store, Blank, En, en);
    var c2 := Absorb(store, c1, Fr, fr);
    assert LangCode(En) == "en" && LangCode(Fr) == "fr" && LangCode(Ar) == "ar";
    assert c1.labels == PerLang(Some(en.tag), None, None);
    assert c2.labels == PerLang(Some(en.tag), Some(fr.tag), None);
    assert c1.propositions == PerLang(en.proposition, None, None);
    assert c2.propositions == PerLang(en.proposition, fr.proposition, None);
    assert c1.patterns == Phrases(en.patterns, "en");
    assert c1.responses == Phrases(en.responses, "en");
  }

  /** The merged related list is save_data's resolution of all three `to`
      lists with repeats removed: it has no repeats, points into the store,
      and holds a context exactly when some `to` code resolves to it. */
  lemma MergeSeedLinks(store: Store, en: SeedRecord, fr: SeedRecord, ar: SeedRecord)
    ensures var c := MergeSeed(store, en, fr, ar);
            && c.related == DedupInto([], ResolveAll(store, AllTo(en, fr, ar)))
            && Distinct(c.related)
            && (forall k :: 0 <= k < |c.related| ==> c.related[k] < |store|)
            && forall j :: j in c.related <==>
                 exists k :: 0 <= k < |AllTo(en, fr, ar)| && FindCode(store, AllTo(en, fr, ar)[k]) == Some(j)
  {
    var r1 := Link(store, [], en.to);
    var r2 := Link(store, r1, fr.to);
    var r3 := Link(store, r2, ar.to);
    assert MergeSeed(store, en, fr, ar).related == r3;
    LinkConcat(store, [], en.to, fr.to);
    LinkConcat(store, [], en.to + fr.to, ar.to);
    LinkIsDedupedResolve(store, [], AllTo(en, fr, ar));
    assert r3 == Link(store, [], AllTo(en, fr, ar));
    forall j {
      LinkMembers(store, [], AllTo(en, fr, ar), j);
    }
  }

  /** With unique codes, a `to` code links a stored context exactly when
      that context carries the code. */
  lemma FindCodeUnique(store: Store, j: nat, code: string)
    requires UniqueCodes(store)
    ensures FindCode(store, code) == Some(j) <==> j < |store| && store[j].context.code == code
  {
  }

  // ---------------------------------------------------------------------
  // The per-record commit loop both seeding paths share

  /** Every related target of `c` is one of the first `n` contexts. */
  predicate LinksBelow(c: Contribution, n: nat) {
    forall k :: 0 <= k < |c.context.related| ==> c.context.related[k] < n
  }

  /** The loop over indices `k - 1` down to `0`: the record of each index is
      built against the current store and committed before the next one is
      built; the first exception stops the loop. */
  function CommitDown(store: Store, build: (Store, nat) -> Result<Contribution, Error>, k: nat): Run<Store, Error>
    decreases k
  {
    if k == 0 then Run(store, None)
    else
      match build(store, k - 1)
      case Failure(e) => Run(store, Some(e))
      case Success(c) =>
        match Commit(store, c)
        case Failure(e) => Run(store, Some(e))
        case Success(next) => CommitDown(next, build, k - 1)
  }

  /** The loop only appends to the store; it stops at the first failure and
      otherwise commits one record per index. */
  lemma {:induction false} CommitDownAppends(store: Store, build: (Store, nat) -> Result<Contribution, Error>, k: nat)
    ensures var r := CommitDown(store, build, k);
            && |store| <= |r.state| <= |store| + k
            && r.state[..|store|] == store
            && (r.failure.None? <==> |r.state| == |store| + k)
    decreases k
  {
    if k > 0 && build(store, k - 1).Success? && Commit(store, build(store, k - 1).value).Success? {
      var next := store + [build(store, k - 1).value];
      CommitDownAppends(next, build, k - 1);
      var s := CommitDown(next, build, k - 1).state;
      assert s[..|store|] == s[..|next|][..|store|];
    }
  }

  /** Building a record gave `built`, and that raised `e`: either the build
      itself failed with `e`, or the store refused the record with `e`. */
  predicate StoppedBy(store: Store, built: Result<Contribution, Error>, e: Error) {
    match built
    case Failure(err) => err == e
    case Success(c) => Commit(store, c) == Failure(e)
  }

  /** `StoppedBy` depends only on the value of the built record. */
  lemma StoppedByTransfer(s: Store, a: Result<Contribution, Error>, b: Result<Contribution, Error>, e: Error)
    requires a == b && StoppedBy(s, a, e)
    ensures StoppedBy(s, b, e)
  {
  }

  /** A failed loop stopped at the index after the last record it
      committed: that index either failed to build, with the error the loop
      reports, or was built and refused by the store, with the store's
      error. Every record before it stays committed. */
  lemma {:induction false} CommitDownStops(store: Store, build: (Store, nat) -> Result<Contribution, Error>, k: nat)
    requires CommitDown(store, build, k).failure.Some?
    ensures var r := CommitDown(store, build, k);
            && |store| <= |r.state| < |store| + k
            && StoppedBy(r.state, build(r.state, k - 1 - (|r.state| - |store|)), r.failure.value)
    decreases k
  {
    CommitDownAppends(store, build, k);
    if build(store, k - 1).Success? && Commit(store, build(store, k - 1).value).Success? {
      var next := store + [build(store, k - 1).value];
      assert CommitDown(store, build, k) == CommitDown(next, build, k - 1);
      CommitDownStops(next, build, k - 1);
    }
  }

  /** `CommitDownStops`, stated for a run already known to be the fold's. */
  lemma RunStops(store: Store, build: (Store, nat) -> Result<Contribution, Error>, k: nat, r: Run<Store, Error>)
    returns (i: nat)
    requires r == CommitDown(store, build, k) && r.failure.Some?
    ensures |store| <= |r.state| < |store| + k && i == k - 1 - (|r.state| - |store|)
    ensures StoppedBy(r.state, build(r.state, i), r.failure.value)
  {
    CommitDownStops(store, build, k);
    i := k - 1 - (|r.state| - |store|);
  }

  /** What the store checks before taking a record: its code is new and
      it names no target twice. */
  predicate Accepted(store: Store, c: Contribution) {
    FindCode(store, c.context.code).None? && Distinct(c.context.related)
  }

  /** A loop that commits anything has built and committed index `k - 1`
      first, and continues from the store holding that record. */
  lemma CommitDownFirst(store: Store, build: (Store, nat) -> Result<Contribution, Error>, k: nat)
    requires |store| < |CommitDown(store, build, k).state|
    ensures k > 0 && build(store, k - 1).Success?
    ensures Accepted(store, build(store, k - 1).value)
    ensures CommitDown(store, build, k) == CommitDown(store + [build(store, k - 1).value], build, k - 1)
  {
  }

  /** Position `|store| + q` of the result holds the record of index
      `k - 1 - q`, built against exactly the contexts committed before it
      and accepted by the store: records are committed highest index first. */
  lemma {:induction false} CommitDownOrder(store: Store, build: (Store, nat) -> Result<Contribution, Error>, k: nat, p: nat)
    requires |store| <= p < |CommitDown(store, build, k).state|
    ensures p - |store| < k
    ensures var s := CommitDown(store, build, k).state;
            && build(s[..p], k - 1 - (p - |store|)) == Success(s[p])
            && Accepted(s[..p], s[p])
    decreases k
  {
    CommitDownFirst(store, build, k);
    var c := build(store, k - 1).value;
    var next := store + [c];
    CommitDownAppends(next, build, k - 1);
    var s := CommitDown(next, build, k - 1).state;
    assert s == CommitDown(store, build, k).state;
    if p == |store| {
      assert s[..p] == s[..|next|][..p] == store;
      assert s[p] == s[..|next|][p] == c;
    } else {
      CommitDownOrder(next, build, k - 1, p);
      assert k - 1 - (p - |store|) == k - 1 - 1 - (p - |next|);
    }
  }

  /** When every record links only contexts already stored, the loop keeps
      the schema valid and every edge pointing backward. */
  lemma {:induction false} CommitDownKeepsSchema(store: Store, build: (Store, nat) -> Result<Contribution, Error>, k: nat)
    requires SchemaValid(store)
    requires forall s: Store, i: nat :: build(s, i).Success? ==> LinksBelow(build(s, i).value, |s|)
    ensures SchemaValid(CommitDown(store, build, k).state)
    ensures EdgesBackward(store) ==> EdgesBackward(CommitDown(store, build, k).state)
    decreases k
  {
    if k > 0 && build(store, k - 1).Success? && Commit(store, build(store, k - 1).value).Success? {
      var c := build(store, k - 1).value;
      assert LinksBelow(c, |store|);
      CommitKeepsSchema(store, c);
      CommitDownKeepsSchema(store + [c], build, k - 1);
    }
  }

  // ---------------------------------------------------------------------
  // Bulk seeding

  /** The contribution built for index `index`; the English record supplies
      title, description and date, and the administrator validates it. */
  function BuildSeed(store: Store, en: seq<SeedRecord>, fr: seq<SeedRecord>, ar: seq<SeedRecord>,
                     index: nat, admin: Option<UserId>): (r: Result<Contribution, Error>)
    ensures r.Success? <==> index < |en| && en[index].meta.Some? && index < |fr| && index < |ar| && admin.Some?
    ensures index < |en| && en[index].meta.None? ==> r == Failure(MissingKey("title"))
    ensures index >= |en| || (en[index].meta.Some? && (index >= |fr| || index >= |ar|)) ==> r == Failure(IndexOutOfRange)
    ensures r.Success? ==>
              var m := en[index].meta.value;
              && r.value.title == m.title
              && r.value.description == m.description
              && r.value.status == Valid
              && r.value.contributor == admin.value
              && r.value.validator == Some(admin.value)
              && r.value.createdAt == m.date
              && r.value.validatedAt == Some(m.date)
              && r.value.context == MergeSeed(store, en[index], fr[index], ar[index])
  {
    if index >= |en| then Failure(IndexOutOfRange)
    else
      match en[index].meta
      case None => Failure(MissingKey("title"))
      case Some(m) =>
        if index >= |fr| || index >= |ar| then Failure(IndexOutOfRange)
        else
          var c := MergeSeed(store, en[index], fr[index], ar[index]);
          match admin
          case None => Failure(NoSuchUser("administrator"))
          case Some(a) => Success(Contribution(m.title, m.description, Valid, a, Some(a), m.date, Some(m.date), c))
  }

  function Seeder(en: seq<SeedRecord>, fr: seq<SeedRecord>, ar: seq<SeedRecord>, admin: Option<UserId>)
    : (Store, nat) -> Result<Contribution, Error>
  {
    (s: Store, i: nat) => BuildSeed(s, en, fr, ar, i, admin)
  }

  /** The bulk loop over the first `k` indices. */
  function SeedFrom(store: Store, en: seq<SeedRecord>, fr: seq<SeedRecord>, ar: seq<SeedRecord>,
                    admin: Option<UserId>, k: nat): (r: Run<Store, Error>)
    ensures |store| <= |r.state| <= |store| + k && r.state[..|store|] == store
    ensures r.failure.None? <==> |r.state| == |store| + k
  {
    CommitDownAppends(store, Seeder(en, fr, ar, admin), k);
    CommitDown(store, Seeder(en, fr, ar, admin), k)
  }

  /** A failed bulk loop stops at the index after the last one it
      committed: that index either could not be built or was refused by the
      store, and its error is the one raised. */
  lemma SeedStops(store: Store, en: seq<SeedRecord>, fr: seq<SeedRecord>, ar: seq<SeedRecord>,
                  admin: Option<UserId>, k: nat)
    requires SeedFrom(store, en, fr, ar, admin, k).failure.Some?
    ensures var r := SeedFrom(store, en, fr, ar, admin, k);
            && |store| <= |r.state| < |store| + k
            && StoppedBy(r.state, BuildSeed(r.state, en, fr, ar, k - 1 - (|r.state| - |store|), admin), r.failure.value)
  {
    var build := Seeder(en, fr, ar, admin);
    var r := SeedFrom(store, en, fr, ar, admin, k);
    assert r == CommitDown(store, build, k);
    var i := RunStops(store, build, k, r);
    assert build(r.state, i) == BuildSeed(r.state, en, fr, ar, i, admin);
    StoppedByTransfer(r.state, build(r.state, i), BuildSeed(r.state, en, fr, ar, i, admin), r.failure.value);
  }

  /** A merged context links only contexts already stored. */
  lemma SeederLinksBelow(en: seq<SeedRecord>, fr: seq<SeedRecord>, ar: seq<SeedRecord>, admin: Option<UserId>)
    ensures forall s: Store, i: nat :: Seeder(en, fr, ar, admin)(s, i).Success? ==>
              LinksBelow(Seeder(en, fr, ar, admin)(s, i).value, |s|)
  {
    forall s: Store, i: nat | Seeder(en, fr, ar, admin)(s, i).Success?
      ensures LinksBelow(Seeder(en, fr, ar, admin)(s, i).value, |s|)
    {
      MergeSeedLinks(s, en[i], fr[i], ar[i]);
    }
  }

  /** Bulk seeding keeps the schema valid, and every new edge points at a
      context stored before the one that holds it. */
  lemma SeedKeepsSchema(store: Store, en: seq<SeedRecord>, fr: seq<SeedRecord>,
                        ar: seq<SeedRecord>, admin: Option<UserId>, k: nat)
    requires SchemaValid(store)
    ensures SchemaValid(SeedFrom(store, en, fr, ar, admin, k).state)
    ensures EdgesBackward(store) ==> EdgesBackward(SeedFrom(store, en, fr, ar, admin, k).state)
  {
    SeederLinksBelow(en, fr, ar, admin);
    CommitDownKeepsSchema(store, Seeder(en, fr, ar, admin), k);
  }

  /** Against a store with unique codes, the merged context links exactly
      the stored contexts whose code one of the three records lists. */
  lemma MergeSeedLinksByCode(store: Store, en: SeedRecord, fr: SeedRecord, ar: SeedRecord, j: nat)
    requires UniqueCodes(store)
    ensures j in MergeSeed(store, en, fr, ar).related <==>
              j < |store| && store[j].context.code in AllTo(en, fr, ar)
  {
    MergeSeedLinks(store, en, fr, ar);
    var codes := AllTo(en, fr, ar);
    if j in MergeSeed(store, en, fr, ar).related {
      var k :| 0 <= k < |codes| && FindCode(store, codes[k]) == Some(j);
      FindCodeUnique(store, j, codes[k]);
    }
    if j < |store| && store[j].context.code in codes {
      var k :| 0 <= k < |codes| && codes[k] == store[j].context.code;
      FindCodeUnique(store, j, codes[k]);
    }
  }

  /** Position `p` of a seeded store comes from an index every record list has. */
  lemma SeededIndex(store: Store, en: seq<SeedRecord>, fr: seq<SeedRecord>,
                    ar: seq<SeedRecord>, admin: Option<UserId>, k: nat, p: nat)
    requires |store| <= p < |SeedFrom(store, en, fr, ar, admin, k).state|
    ensures p - |store| < k
    ensures k - 1 - (p - |store|) < |en| && k - 1 - (p - |store|) < |fr| && k - 1 - (p - |store|) < |ar|
  {
    CommitDownOrder(store, Seeder(en, fr, ar, admin), k, p);
  }

  /** Position `p` of a seeded store holds the merge of index
      `k - 1 - (p - |store|)` of the three record lists, made against the
      contexts stored before it. */
  lemma SeededAt(store: Store, en: seq<SeedRecord>, fr: seq<SeedRecord>,
                 ar: seq<SeedRecord>, admin: Option<UserId>, k: nat, p: nat)
    requires |store| <= p < |SeedFrom(store, en, fr, ar, admin, k).state|
    ensures p - |store| < k
    ensures k - 1 - (p - |store|) < |en| && k - 1 - (p - |store|) < |fr| && k - 1 - (p - |store|) < |ar|
    ensures var s := SeedFrom(store, en, fr, ar, admin, k).state;
            var i := k - 1 - (p - |store|);
            s[p].context == MergeSeed(s[..p], en[i], fr[i], ar[i])
  {
    CommitDownOrder(store, Seeder(en, fr, ar, admin), k, p);
    SeederMerges(en, fr, ar, admin);
  }

  /** A record the bulk loop builds is the merge of the index's three records. */
  lemma SeederMerges(en: seq<SeedRecord>, fr: seq<SeedRecord>, ar: seq<SeedRecord>, admin: Option<UserId>)
    ensures forall s: Store, i: nat :: Seeder(en, fr, ar, admin)(s, i).Success? ==>
              && i < |en| && i < |fr| && i < |ar|
              && Seeder(en, fr, ar, admin)(s, i).value.context == MergeSeed(s, en[i], fr[i], ar[i])
  {
  }

  lemma UniqueCodesPrefix(s: Store, p: nat)
    requires UniqueCodes(s) && p <= |s|
    ensures UniqueCodes(s[..p])
  {
    forall i, j | 0 <= i < j < p
      ensures s[..p][i].context.code != s[..p][j].context.code
    {
      assert s[..p][i] == s[i] && s[..p][j] == s[j];
    }
  }

  /** When the record of index `i`, built against a store with unique codes,
      links exactly the stored contexts whose code `targets(i)` lists, each
      committed record links exactly the earlier contexts so named. */
  lemma CommitDownLinks(store: Store, build: (Store, nat) -> Result<Contribution, Error>, k: nat,
                        targets: nat -> seq<string>, p: nat, j: nat)
    requires SchemaValid(store)
    requires forall s: Store, i: nat :: build(s, i).Success? ==> LinksBelow(build(s, i).value, |s|)
    requires forall s: Store, i: nat, t: nat :: UniqueCodes(s) && build(s, i).Success? ==>
               (t in build(s, i).value.context.related <==> t < |s| && s[t].context.code in targets(i))
    requires |store| <= p < |CommitDown(store, build, k).state|
    ensures p - |store| < k
    ensures var s := CommitDown(store, build, k).state;
            j in s[p].context.related <==> j < p && s[j].context.code in targets(k - 1 - (p - |store|))
  {
    var s := CommitDown(store, build, k).state;
    CommitDownOrder(store, build, k, p);
    CommitDownKeepsSchema(store, build, k);
    UniqueCodesPrefix(s, p);
    var i := k - 1 - (p - |store|);
    assert build(s[..p], i) == Success(s[p]);
    assert j < p ==> s[..p][j] == s[j];
  }

  /** The codes the three records of index `i` list in `to`. */
  function SeedTargets(en: seq<SeedRecord>, fr: seq<SeedRecord>, ar: seq<SeedRecord>): nat -> seq<string> {
    (i: nat) => if i < |en| && i < |fr| && i < |ar| then AllTo(en[i], fr[i], ar[i]) else []
  }

  lemma SeederLinksByCode(en: seq<SeedRecord>, fr: seq<SeedRecord>, ar: seq<SeedRecord>, admin: Option<UserId>)
    ensures forall s: Store, i: nat, t: nat :: UniqueCodes(s) && Seeder(en, fr, ar, admin)(s, i).Success? ==>
              (t in Seeder(en, fr, ar, admin)(s, i).value.context.related <==>
               t < |s| && s[t].context.code in SeedTargets(en, fr, ar)(i))
  {
    forall s: Store, i: nat, t: nat | UniqueCodes(s) && Seeder(en, fr, ar, admin)(s, i).Success?
      ensures t in Seeder(en, fr, ar, admin)(s, i).value.context.related <==>
              t < |s| && s[t].context.code in SeedTargets(en, fr, ar)(i)
    {
      MergeSeedLinksByCode(s, en[i], fr[i], ar[i], t);
    }
  }

  /** Each seeded context links exactly the earlier contexts whose code one
      of its three records lists in `to`: a code that names no context yet
      is dropped, and a context never links itself or a later one. */
  lemma SeedLinksOnlyEarlierContexts(store: Store, en: seq<SeedRecord>, fr: seq<SeedRecord>,
                                     ar: seq<SeedRecord>, admin: Option<UserId>, k: nat, p: nat, j: nat)
    requires SchemaValid(store)
    requires |store| <= p < |SeedFrom(store, en, fr, ar, admin, k).state|
    ensures p - |store| < k
    ensures k - 1 - (p - |store|) < |en| && k - 1 - (p - |store|) < |fr| && k - 1 - (p - |store|) < |ar|
    ensures var s := SeedFrom(store, en, fr, ar, admin, k).state;
            var i := k - 1 - (p - |store|);
            j in s[p].context.related <==> j < p && s[j].context.code in AllTo(en[i], fr[i], ar[i])
  {
    SeededIndex(store, en, fr, ar, admin, k, p);
    var i := k - 1 - (p - |store|);
    var targets := SeedTargets(en, fr, ar);
    assert targets(i) == AllTo(en[i], fr[i], ar[i]);
    var s := SeedFrom(store, en, fr, ar, admin, k).state;
    assert j in s[p].context.related <==> j < p && s[j].context.code in targets(i) by {
      SeederLinksBelow(en, fr, ar, admin);
      SeederLinksByCode(en, fr, ar, admin);
      CommitDownLinks(store, Seeder(en, fr, ar, admin), k, targets, p, j);
    }
  }

  /** The loop runs to the end when every index builds, whatever the store,
      a record that names its targets once and a code that depends on the
      index alone, and those codes are distinct and new to the store. */
  lemma {:induction false} CommitDownCompletes(store: Store, build: (Store, nat) -> Result<Contribution, Error>,
                                               k: nat, codeOf: nat -> string)
    requires forall s: Store, i: nat :: i < k ==>
               build(s, i).Success? && build(s, i).value.context.code == codeOf(i)
               && Distinct(build(s, i).value.context.related)
    requires forall i: nat, i': nat :: i < i' < k ==> codeOf(i) != codeOf(i')
    requires forall i: nat, p :: i < k && 0 <= p < |store| ==> store[p].context.code != codeOf(i)
    ensures CommitDown(store, build, k).failure.None?
    decreases k
  {
    if k > 0 {
      var c := build(store, k - 1).value;
      assert FindCode(store, c.context.code).None?;
      var next := store + [c];
      assert Commit(store, c) == Success(next);
      forall i: nat, p | i < k - 1 && 0 <= p < |next|
        ensures next[p].context.code != codeOf(i)
      {
        if p == |store| {
          assert next[p] == c;
        } else {
          assert next[p] == store[p];
        }
      }
      CommitDownCompletes(next, build, k - 1, codeOf);
    }
  }

  /** A merged context carries the Arabic code and names each target once. */
  lemma MergeSeedAccepted(store: Store, en: SeedRecord, fr: SeedRecord, ar: SeedRecord)
    ensures MergeSeed(store, en, fr, ar).code == ar.code
    ensures Distinct(MergeSeed(store, en, fr, ar).related)
  {
    MergeSeedContent(store, en, fr, ar);
    MergeSeedLinks(store, en, fr, ar);
  }

  /** A bulk seed stops only on a malformed record, a missing administrator
      or a duplicate code: with well-formed, aligned records whose merged
      (Arabic) codes are distinct and new, every index is committed. */
  lemma SeedCompletes(store: Store, en: seq<SeedRecord>, fr: seq<SeedRecord>,
                      ar: seq<SeedRecord>, admin: Option<UserId>, k: nat)
    requires k <= |en| && k <= |fr| && k <= |ar| && admin.Some?
    requires forall i :: 0 <= i < k ==> en[i].meta.Some?
    requires forall i, i' :: 0 <= i < i' < k ==> ar[i].code != ar[i'].code
    requires forall i, p :: 0 <= i < k && 0 <= p < |store| ==> store[p].context.code != ar[i].code
    ensures SeedFrom(store, en, fr, ar, admin, k).failure.None?
  {
    var build := Seeder(en, fr, ar, admin);
    var codeOf := (i: nat) => if i < |ar| then ar[i].code else "";
    forall s: Store, i: nat | i < k
      ensures build(s, i).Success? && build(s, i).value.context.code == codeOf(i)
              && Distinct(build(s, i).value.context.related)
    {
      MergeSeedAccepted(s, en[i], fr[i], ar[i]);
    }
    CommitDownCompletes(store, build, k, codeOf);
  }

  // ---------------------------------------------------------------------
  // save_data: one language, no deduplication

  /** The context save_data builds: only the columns of a recognised
      language are set, and related targets are not deduplicated. */
  function SaveContext(store: Store, rec: SeedRecord, lang: string): (c: Context)
    ensures c.code == rec.code
    ensures forall l: Lang :: c.labels.Get(l) == (if LangCode(l) == lang then Some(rec.tag) else None)
    ensures forall l: Lang :: c.propositions.Get(l) == (if LangCode(l) == lang then rec.proposition else None)
    ensures c.patterns == Phrases(rec.patterns, lang) && c.responses == Phrases(rec.responses, lang)
    ensures c.related == ResolveAll(store, rec.to)
  {
    match ParseLang(lang)
    case Some(l) =>
      Context(rec.code, NoLabels.Set(l, Some(rec.tag)), NoLabels.Set(l, rec.proposition),
              Phrases(rec.patterns, lang), Phrases(rec.responses, lang), ResolveAll(store, rec.to))
    case None =>
      Context(rec.code, NoLabels, NoLabels,
              Phrases(rec.patterns, lang), Phrases(rec.responses, lang), ResolveAll(store, rec.to))
  }

  /** The contribution save_data builds; `now` is the clock reading. */
  function SaveRecord(store: Store, rec: SeedRecord, lang: string, admin: Option<UserId>, now: Date)
    : (r: Result<Contribution, Error>)
    ensures r.Success? <==> admin.Some?
    ensures r.Success? ==>
              && r.value.title == "NO TITLE"
              && r.value.description == None
              && r.value.status == Valid
              && r.value.contributor == admin.value
              && r.value.validator == Some(admin.value)
              && r.value.createdAt == now
              && r.value.validatedAt == Some(now)
              && r.value.context == SaveContext(store, rec, lang)
  {
    match admin
    case None => Failure(NoSuchUser("administrator"))
    case Some(a) => Success(Contribution("NO TITLE", None, Valid, a, Some(a), now, Some(now), SaveContext(store, rec, lang)))
  }

  function Saver(data: seq<SeedRecord>, lang: string, admin: Option<UserId>, now: Date)
    : (Store, nat) -> Result<Contribution, Error>
  {
    (s: Store, i: nat) => if i < |data| then SaveRecord(s, data[i], lang, admin, now) else Failure(IndexOutOfRange)
  }

  /** `save_data(data, lang)`: the records are committed last first. */
  function SaveData(store: Store, data: seq<SeedRecord>, lang: string, admin: Option<UserId>, now: Date)
    : (r: Run<Store, Error>)
    ensures |store| <= |r.state| <= |store| + |data| && r.state[..|store|] == store
    ensures r.failure.None? <==> |r.state| == |store| + |data|
  {
    CommitDownAppends(store, Saver(data, lang, admin, now), |data|);
    CommitDown(store, Saver(data, lang, admin, now), |data|)
  }

  /** A failed save_data stops at the record after the last one it
      committed (records are taken last first): that record either could not
      be built or was refused by the store, and its error is the one raised. */
  lemma SaveDataStops(store: Store, data: seq<SeedRecord>, lang: string, admin: Option<UserId>, now: Date)
    requires SaveData(store, data, lang, admin, now).failure.Some?
    ensures var r := SaveData(store, data, lang, admin, now);
            && |store| <= |r.state| < |store| + |data|
            && StoppedBy(r.state, SaveRecord(r.state, data[|data| - 1 - (|r.state| - |store|)], lang, admin, now),
                         r.failure.value)
  {
    var build := Saver(data, lang, admin, now);
    var r := SaveData(store, data, lang, admin, now);
    SaveDataFolds(store, data, lang, admin, now);
    var i := RunStops(store, build, |data|, r);
    SaverAt(data, lang, admin, now, r.state, i);
    StoppedByTransfer(r.state, build(r.state, i), SaveRecord(r.state, data[i], lang, admin, now), r.failure.value);
  }

  lemma SaveDataFolds(store: Store, data: seq<SeedRecord>, lang: string, admin: Option<UserId>, now: Date)
    ensures SaveData(store, data, lang, admin, now) == CommitDown(store, Saver(data, lang, admin, now), |data|)
  {
  }

  lemma SaverAt(data: seq<SeedRecord>, lang: string, admin: Option<UserId>, now: Date, s: Store, i: nat)
    requires i < |data|
    ensures Saver(data, lang, admin, now)(s, i) == SaveRecord(s, data[i], lang, admin, now)
  {
  }

  /** save_data keeps the schema valid and every edge pointing backward:
      a record links only contexts committed before it. */
  lemma SaveDataKeepsSchema(store: Store, data: seq<SeedRecord>, lang: string, admin: Option<UserId>, now: Date)
    requires SchemaValid(store)
    ensures SchemaValid(SaveData(store, data, lang, admin, now).state)
    ensures EdgesBackward(store) ==> EdgesBackward(SaveData(store, data, lang, admin, now).state)
  {
    CommitDownKeepsSchema(store, Saver(data, lang, admin, now), |data|);
  }

  /** A stored code listed twice resolves to the same position twice. */
  lemma RepeatedCodeResolvesTwice(store: Store, codes: seq<string>, a: nat, b: nat)
    requires 0 <= a < b < |codes| && codes[a] == codes[b] && FindCode(store, codes[a]).Some?
    ensures !Distinct(ResolveAll(store, codes))
  {
    var j := FindCode(store, codes[a]).value;
    var front := codes[..b];
    var back := codes[b..];
    assert codes == front + back;
    ResolveAllConcat(store, front, back);
    assert ResolveAll(store, back) == [j] + ResolveAll(store, back[1..]) by {
      assert back[0] == codes[b];
    }
    assert FindCode(store, front[a]) == Some(j);
    ResolveAllMembers(store, front, j);
    var r1 := ResolveAll(store, front);
    var x :| 0 <= x < |r1| && r1[x] == j;
    var rel := ResolveAll(store, codes);
    assert rel == r1 + ([j] + ResolveAll(store, back[1..]));
    assert rel[x] == j && rel[|r1|] == j;
  }

  /** save_data links a target once per `to` entry naming it, so a record
      listing a stored code twice is refused by the edge table's key,
      whereas the bulk merge of the same codes keeps a single edge. */
  lemma RepeatedTargetRejected(store: Store, rec: SeedRecord, lang: string, admin: UserId, now: Date, a: nat, b: nat)
    requires 0 <= a < b < |rec.to| && rec.to[a] == rec.to[b] && FindCode(store, rec.to[a]).Some?
    requires FindCode(store, rec.code).None?
    ensures Commit(store, SaveRecord(store, rec, lang, Some(admin), now).value) == Failure(DuplicateEdge)
    ensures Distinct(Link(store, [], rec.to))
  {
    RepeatedCodeResolvesTwice(store, rec.to, a, b);
    var c := SaveRecord(store, rec, lang, Some(admin), now).value;
    assert c.context.code == rec.code && !Distinct(c.context.related);
  }

  // ---------------------------------------------------------------------
  // initialize_database

  /** The tables the initialisation touches. */
  datatype Db = Db(roles: seq<Role>, users: seq<User>, store: Store)

  /** `query(Role).filter_by(label=name).first()`. */
  function FindRole(roles: seq<Role>, name: string): (r: Option<nat>)
    ensures r.Some? ==> r.value < |roles| && roles[r.value].name == Some(name)
    ensures r.Some? ==> forall i :: 0 <= i < r.value ==> roles[i].name != Some(name)
    ensures r.None? <==> forall i :: 0 <= i < |roles| ==> roles[i].name != Some(name)
  {
    if |roles| == 0 then None
    else if roles[|roles| - 1].name == Some(name) && FindRole(roles[..|roles| - 1], name).None? then Some(|roles| - 1)
    else FindRole(roles[..|roles| - 1], name)
  }

  /** `query(User).filter_by(username=name).first()`; a user's id is its position. */
  function FindUser(users: seq<User>, name: string): (r: Option<UserId>)
    ensures r.Some? ==> r.value < |users| && users[r.value].username == name
    ensures r.Some? ==> forall i :: 0 <= i < r.value ==> users[i].username != name
    ensures r.None? <==> forall i :: 0 <= i < |users| ==> users[i].username != name
  {
    if |users| == 0 then None
    else if users[|users| - 1].username == name && FindUser(users[..|users| - 1], name).None? then Some(|users| - 1)
    else FindUser(users[..|users| - 1], name)
  }

  /** `roles.label` is declared unique; SQL lets several rows hold NULL. */
  predicate UniqueRoleLabels(roles: seq<Role>) {
    forall i, j :: 0 <= i < j < |roles| && roles[i].name.Some? ==> roles[i].name != roles[j].name
  }

  /** One iteration of the roles loop: a role with its permissions, committed;
      a label already taken is refused by the unique constraint. */
  function SeedRole(roles: seq<Role>, v: Value): (r: Result<seq<Role>, Error>)
    ensures r.Success? ==> |r.value| == |roles| + 1 && r.value[..|roles|] == roles
    ensures r.Success? && UniqueRoleLabels(roles) ==> UniqueRoleLabels(r.value)
  {
    var name :- OptStrField(v, "label");
    var items :- IterField(v, "permissions");
    var ps :- DictToPermissions(items);
    if name.Some? && FindRole(roles, name.value).Some? then Failure(DuplicateRoleLabel(name.value))
    else Success(roles + [Role(name, ps)])
  }

  /** What one entry of the roles loop does: the label is read, then the
      `permissions` value is iterated and converted, each failure raising in
      that order; a taken label raises; otherwise the role is appended. */
  lemma SeedRoleOutcome(roles: seq<Role>, v: Value)
    ensures OptStrField(v, "label").Failure? ==> SeedRole(roles, v) == Failure(OptStrField(v, "label").error)
    ensures OptStrField(v, "label").Success? && IterField(v, "permissions").Failure? ==>
              SeedRole(roles, v) == Failure(IterField(v, "permissions").error)
    ensures OptStrField(v, "label").Success? && IterField(v, "permissions").Success? ==>
              var name := OptStrField(v, "label").value;
              var perms := DictToPermissions(IterField(v, "permissions").value);
              && (perms.Failure? ==> SeedRole(roles, v) == Failure(perms.error))
              && (perms.Success? && name.Some? && FindRole(roles, name.value).Some? ==>
                    SeedRole(roles, v) == Failure(DuplicateRoleLabel(name.value)))
              && (perms.Success? && (name.None? || FindRole(roles, name.value).None?) ==>
                    SeedRole(roles, v) == Success(roles + [Role(name, perms.value)]))
  {
  }

  /** The roles loop: one committed role per entry, in order, until an entry
      raises; the roles committed before it stay. */
  function SeedRoles(roles: seq<Role>, data: seq<Value>): (r: Run<seq<Role>, Error>)
    ensures |roles| <= |r.state| <= |roles| + |data| && r.state[..|roles|] == roles
    ensures r.failure.None? <==> |r.state| == |roles| + |data|
    decreases |data|
  {
    if |data| == 0 then Run(roles, None)
    else
      match SeedRole(roles, data[0])
      case Failure(e) => Run(roles, Some(e))
      case Success(rs) =>
        var rest := SeedRoles(rs, data[1..]);
        assert rest.state[..|roles|] == rs[..|roles|];
        rest
  }

  /** Each role the loop commits is built by `SeedRole` from its entry
      against the roles committed before it. */
  lemma {:induction false} SeedRolesSteps(roles: seq<Role>, data: seq<Value>, q: nat)
    requires |roles| <= q < |SeedRoles(roles, data).state|
    ensures var r := SeedRoles(roles, data);
            SeedRole(r.state[..q], data[q - |roles|]) == Success(r.state[..q + 1])
    decreases |data|
  {
    var rs := SeedRole(roles, data[0]).value;
    var r := SeedRoles(rs, data[1..]);
    assert SeedRoles(roles, data) == r;
    if q == |roles| {
      assert r.state[..q] == roles;
      assert r.state[..q + 1] == rs;
    } else {
      SeedRolesSteps(rs, data[1..], q);
      assert data[q - |roles|] == data[1..][q - |rs|];
    }
  }

  /** A failed run stops at the entry that raised, keeping the roles
      committed before it. */
  lemma {:induction false} SeedRolesStops(roles: seq<Role>, data: seq<Value>)
    requires SeedRoles(roles, data).failure.Some?
    ensures var r := SeedRoles(roles, data);
            SeedRole(r.state, data[|r.state| - |roles|]) == Failure(r.failure.value)
    decreases |data|
  {
    if SeedRole(roles, data[0]).Success? {
      var rs := SeedRole(roles, data[0]).value;
      var r := SeedRoles(rs, data[1..]);
      assert SeedRoles(roles, data) == r;
      SeedRolesStops(rs, data[1..]);
      assert data[|r.state| - |roles|] == data[1..][|r.state| - |rs|];
    }
  }

  /** Seeding roles keeps role labels unique. */
  lemma {:induction false} SeedRolesKeepLabelsUnique(roles: seq<Role>, data: seq<Value>)
    requires UniqueRoleLabels(roles)
    ensures UniqueRoleLabels(SeedRoles(roles, data).state)
    decreases |data|
  {
    if |data| > 0 && SeedRole(roles, data[0]).Success? {
      SeedRolesKeepLabelsUnique(SeedRole(roles, data[0]).value, data[1..]);
    }
  }

  /** The roles step of `initialize_database` raised nothing: it was skipped
      or every entry was committed. */
  predicate RolesSeeded(db: Db, rolesJson: seq<Value>) {
    |db.roles| > 0 || SeedRoles(db.roles, rolesJson).failure.None?
  }

  /** `initialize_database`: roles, then the administrator, then the
      contexts, each step guarded by its table being empty; an exception
      ends the run, keeping what was committed. `rolesJson` and the three
      record lists stand for the JSON files; `adminName` is the
      administrator's username. */
  function InitializeDatabase(db: Db, rolesJson: seq<Value>, adminName: string,
                              en: seq<SeedRecord>, fr: seq<SeedRecord>, ar: seq<SeedRecord>): (r: Run<Db, Error>)
    ensures |db.roles| > 0 ==> r.state.roles == db.roles
    ensures |db.users| > 0 ==> r.state.users == db.users
    ensures |db.store| > 0 ==> r.state.store == db.store
    ensures |db.store| == 0 ==>
              (r.state.store == [] ||
               r.state.store == SeedFrom([], en, fr, ar, FindUser(r.state.users, adminName), |en|).state)
    ensures |db.store| == 0 && r.failure.None? ==> |r.state.store| == |en|
    // the roles step runs exactly on an empty roles table, and its failure ends the run
    ensures |db.roles| == 0 ==> r.state.roles == SeedRoles(db.roles, rolesJson).state
    ensures |db.roles| == 0 && SeedRoles(db.roles, rolesJson).failure.Some? ==>
              r == Run(db.(roles := r.state.roles), SeedRoles(db.roles, rolesJson).failure)
    // the users step runs exactly on an empty users table, and needs the administrator role
    ensures RolesSeeded(db, rolesJson) && |db.users| == 0 ==>
              if FindRole(r.state.roles, "administrator").None?
              then r == Run(db.(roles := r.state.roles), Some(NoAdministratorRole))
              else r.state.users == [User(adminName, FindRole(r.state.roles, "administrator").value)]
    // the contexts step runs exactly on an empty contexts table
    ensures RolesSeeded(db, rolesJson) && (|db.users| > 0 || FindRole(r.state.roles, "administrator").Some?) ==>
              if |db.store| > 0 then r.failure.None?
              else
                var seeded := SeedFrom([], en, fr, ar, FindUser(r.state.users, adminName), |en|);
                r.state.store == seeded.state && r.failure == seeded.failure
  {
    var rolesRun := if |db.roles| == 0 then SeedRoles(db.roles, rolesJson) else Run(db.roles, None);
    var db1 := db.(roles := rolesRun.state);
    if rolesRun.failure.Some? then Run(db1, rolesRun.failure)
    else
      var users: Result<seq<User>, Error> :=
        if |db1.users| > 0 then Success(db1.users)
        else match FindRole(db1.roles, "administrator")
          case None => Failure(NoAdministratorRole)
          case Some(role) => Success(db1.users + [User(adminName, role)]);
      if users.Failure? then Run(db1, Some(users.error))
      else
        var db2 := db1.(users := users.value);
        if |db2.store| > 0 then Run(db2, None)
        else
          var seeded := SeedFrom(db2.store, en, fr, ar, FindUser(db2.users, adminName), |en|);
          CommitDownAppends(db2.store, Seeder(en, fr, ar, FindUser(db2.users, adminName)), |en|);
          Run(db2.(store := seeded.state), seeded.failure)
  }

  /** Every context the bulk seed adds carries a label in all three languages. */
  lemma SeededContextsAreLabelled(store: Store, en: seq<SeedRecord>, fr: seq<SeedRecord>,
                                  ar: seq<SeedRecord>, admin: Option<UserId>, k: nat, p: nat, l: Lang)
    requires |store| <= p < |SeedFrom(store, en, fr, ar, admin, k).state|
    ensures SeedFrom(store, en, fr, ar, admin, k).state[p].context.labels.Get(l).Some?
  {
    var s := SeedFrom(store, en, fr, ar, admin, k).state;
    SeededAt(store, en, fr, ar, admin, k, p);
    var i := k - 1 - (p - |store|);
    MergeSeedContent(s[..p], en[i], fr[i], ar[i]);
  }

  /** On a database without contexts the seeded graph satisfies the schema,
      has every edge pointing backward, and gives every context a label in
      all three languages. */
  lemma InitializedGraphIsWellFormed(db: Db, rolesJson: seq<Value>, adminName: string,
                                     en: seq<SeedRecord>, fr: seq<SeedRecord>, ar: seq<SeedRecord>)
    requires |db.store| == 0
    ensures var s := InitializeDatabase(db, rolesJson, adminName, en, fr, ar).state.store;
            && SchemaValid(s) && EdgesBackward(s)
            && forall p, l: Lang :: 0 <= p < |s| ==> s[p].context.labels.Get(l).Some?
  {
    var r := InitializeDatabase(db, rolesJson, adminName, en, fr, ar);
    var admin := FindUser(r.state.users, adminName);
    SeedKeepsSchema([], en, fr, ar, admin, |en|);
    forall p, l: Lang | 0 <= p < |r.state.store|
      ensures r.state.store[p].context.labels.Get(l).Some?
    {
      SeededContextsAreLabelled([], en, fr, ar, admin, |en|, p, l);
    }
  }
}
