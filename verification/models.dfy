/** The entity records of the knowledge graph (roles and permissions,
    contributions, contexts with their patterns and responses), the JSON
    values their dict converters read and write, and the schema
    constraints of the relational store: a unique context `code` and an
    edge table keyed by (main, related). */
module Models {
  import opened Wrappers

  // ---------------------------------------------------------------------
  // Languages

  /** The three languages a context carries a label and a proposition for. */
  datatype Lang = En | Fr | Ar

  function LangCode(l: Lang): string {
    match l
    case En => "en"
    case Fr => "fr"
    case Ar => "ar"
  }

  /** Recognises one of the three language codes; any other string names no column. */
  function ParseLang(s: string): (r: Option<Lang>)
    ensures r.Some? ==> LangCode(r.value) == s
    ensures forall l: Lang :: LangCode(l) == s ==> r == Some(l)
    ensures r.None? <==> forall l: Lang :: LangCode(l) != s
  {
    if s == "en" then Some(En)
    else if s == "fr" then Some(Fr)
    else if s == "ar" then Some(Ar)
    else None
  }

  /** One value per language: the `label_<lang>` and `proposition_<lang>` column triples. */
  datatype PerLang<T> = PerLang(en: T, fr: T, ar: T) {
    function Get(l: Lang): T {
      match l
      case En => en
      case Fr => fr
      case Ar => ar
    }

    function Set(l: Lang, v: T): (r: PerLang<T>)
      ensures r.Get(l) == v
      ensures forall m: Lang :: m != l ==> r.Get(m) == Get(m)
    {
      match l
      case En => this.(en := v)
      case Fr => this.(fr := v)
      case Ar => this.(ar := v)
    }
  }

  // ---------------------------------------------------------------------
  // JSON values and the exceptions the converters can raise

  /** A decoded JSON value; `Object` is a Python dict with string keys. */
  datatype Value =
    | Null
    | Bool(b: bool)
    | Int(i: int)
    | Str(s: string)
    | List(items: seq<Value>)
    | Object(fields: map<string, Value>)

  /** The exceptions of the modelled code, one constructor per cause. */
  datatype Error =
    | NotAnObject                    // subscripting something that is not a dict
    | MissingKey(key: string)        // KeyError
    | WrongType(key: string)         // a column rejects the value stored under `key`
    | IndexOutOfRange                // IndexError on a per-language record list
    | DuplicateCode(code: string)    // unique constraint on contexts.code
    | DuplicateEdge                  // primary key of related_contexts
    | DuplicateRoleLabel(name: string) // unique constraint on roles.label
    | NoAdministratorRole            // `role.id` on a missing administrator role
    | NoSuchUser(name: string)       // `admin.id` on a missing administrator user
    | UnorderableLabels              // `sorted` comparing None with a label
    | LabelNotInClasses              // `classes.index` of an absent label
    | EmptyTrainingSet               // slicing the array of an empty training list

  function OptStr(o: Option<string>): Value {
    match o
    case Some(s) => Str(s)
    case None => Null
  }

  function OptInt(o: Option<int>): Value {
    match o
    case Some(n) => Int(n)
    case None => Null
  }

  /** `v[key]`. */
  function Field(v: Value, key: string): (r: Result<Value, Error>)
    ensures r.Success? <==> v.Object? && key in v.fields
    ensures r.Success? ==> r.value == v.fields[key]
    ensures r.Failure? ==> r.error == (if v.Object? then MissingKey(key) else NotAnObject)
  {
    if !v.Object? then Failure(NotAnObject)
    else if key !in v.fields then Failure(MissingKey(key))
    else Success(v.fields[key])
  }

  /** `v[key]` stored into a non-nullable string column. */
  function StrField(v: Value, key: string): Result<string, Error> {
    var x :- Field(v, key);
    if x.Str? then Success(x.s) else Failure(WrongType(key))
  }

  /** `v[key]` stored into a nullable string column. */
  function OptStrField(v: Value, key: string): Result<Option<string>, Error> {
    var x :- Field(v, key);
    match x
    case Null => Success(None)
    case Str(s) => Success(Some(s))
    case _ => Failure(WrongType(key))
  }

  /** What `for x in v[key]` hands to a loop body that subscripts `x` by a
      string: a list's items; nothing for an empty dict or string; any other
      value fails, either because it cannot be iterated or because its
      elements (dict keys, characters) cannot be subscripted by a string. */
  function IterField(v: Value, key: string): (r: Result<seq<Value>, Error>)
    ensures r.Success? <==>
              (Field(v, key).Success? &&
               (Field(v, key).value.List? || Field(v, key).value == Object(map[]) || Field(v, key).value == Str("")))
    ensures r.Success? && Field(v, key).value.List? ==> r.value == Field(v, key).value.items
    ensures r.Success? && !Field(v, key).value.List? ==> r.value == []
    ensures Field(v, key).Failure? ==> r == Failure(Field(v, key).error)
  {
    var x :- Field(v, key);
    match x
    case List(items) => Success(items)
    case Object(fields) => if |fields| == 0 then Success([]) else Failure(WrongType(key))
    case Str(s) => if |s| == 0 then Success([]) else Failure(WrongType(key))
    case _ => Failure(WrongType(key))
  }

  /** `v[key]` stored into a Boolean column declared `default=False`. An
      attribute set to `None` on a new row is left out of the INSERT, so
      the column default stores False for a null. */
  function FlagField(v: Value, key: string): Result<bool, Error> {
    var x :- Field(v, key);
    match x
    case Bool(b) => Success(b)
    case Null => Success(false)
    case _ => Failure(WrongType(key))
  }

  // ---------------------------------------------------------------------
  // Permissions

  datatype Permission = Permission(
    id: Option<int>,
    name: Option<string>,
    canCreateAll: bool,
    canCreate: bool,
    canReadAll: bool,
    canRead: bool,
    canUpdateAll: bool,
    canUpdate: bool,
    canDeleteAll: bool,
    canDelete: bool)

  /** The keys `Permission.as_dict` writes. */
  const PermissionKeys: set<string> := {"id", "label", "canReadAll", "canRead", "canCreateAll", "canCreate",
                                        "canUpdateAll", "canUpdate", "canDeleteAll", "canDelete"}

  /** The value `Permission.as_dict` writes under `key`. */
  function PermissionEntry(p: Permission, key: string): Value {
    if key == "label" then OptStr(p.name)
    else if key == "canReadAll" then Bool(p.canReadAll)
    else if key == "canRead" then Bool(p.canRead)
    else if key == "canCreateAll" then Bool(p.canCreateAll)
    else if key == "canCreate" then Bool(p.canCreate)
    else if key == "canUpdateAll" then Bool(p.canUpdateAll)
    else if key == "canUpdate" then Bool(p.canUpdate)
    else if key == "canDeleteAll" then Bool(p.canDeleteAll)
    else if key == "canDelete" then Bool(p.canDelete)
    else OptInt(p.id)
  }

  /** `Permission.as_dict`. */
  function PermissionAsDict(p: Permission): (d: Value)
    ensures d.Object? && d.fields.Keys == PermissionKeys
    ensures d.fields["id"] == OptInt(p.id)
    ensures forall key :: key in FlagKeys ==> d.fields[key].Bool?
    ensures d.fields["label"].Str? || d.fields["label"].Null?
  {
    Object(map key | key in PermissionKeys :: PermissionEntry(p, key))
  }

  /** The keys of the eight permission flags. */
  const FlagKeys: set<string> := PermissionKeys - {"id", "label"}

  /** One entry of `Permission.dict_to_permissions`, keys read in argument
      order; the row has no id yet. */
  function DictToPermission(v: Value): (r: Result<Permission, Error>)
    ensures r.Success? <==>
              OptStrField(v, "label").Success? &&
              forall key :: key in FlagKeys ==> FlagField(v, key).Success?
  {
    var name :- OptStrField(v, "label");
    var createAll :- FlagField(v, "canCreateAll");
    var create :- FlagField(v, "canCreate");
    var readAll :- FlagField(v, "canReadAll");
    var read :- FlagField(v, "canRead");
    var writes :- DictToWriteFlags(v);
    Success(Permission(None, name, createAll, create, readAll, read, writes.0, writes.1, writes.2, writes.3))
  }

  /** The last four keyword arguments of the same constructor call. */
  function DictToWriteFlags(v: Value): Result<(bool, bool, bool, bool), Error> {
    var updateAll :- FlagField(v, "canUpdateAll");
    var update :- FlagField(v, "canUpdate");
    var deleteAll :- FlagField(v, "canDeleteAll");
    var delete :- FlagField(v, "canDelete");
    Success((updateAll, update, deleteAll, delete))
  }

  /** `Permission.dict_to_permissions`: one permission per entry, in order;
      the first malformed entry raises. */
  function DictToPermissions(data: seq<Value>): (r: Result<seq<Permission>, Error>)
    ensures r.Success? <==> forall i :: 0 <= i < |data| ==> DictToPermission(data[i]).Success?
    ensures r.Success? ==> |r.value| == |data|
    ensures r.Success? ==> forall i :: 0 <= i < |data| ==> DictToPermission(data[i]) == Success(r.value[i])
    ensures r.Failure? ==> exists i :: 0 <= i < |data| && DictToPermission(data[i]) == Failure(r.error)
                                      && forall j :: 0 <= j < i ==> DictToPermission(data[j]).Success?
  {
    if |data| == 0 then Success([])
    else
      var p :- DictToPermission(data[0]);
      var rest :- DictToPermissions(data[1..]);
      Success([p] + rest)
  }

  /** The label and the create and read flags `dict_to_permissions` reads
      back from an `as_dict` result. */
  lemma PermissionDictFields(p: Permission)
    ensures OptStrField(PermissionAsDict(p), "label") == Success(p.name)
    ensures FlagField(PermissionAsDict(p), "canCreateAll") == Success(p.canCreateAll)
    ensures FlagField(PermissionAsDict(p), "canCreate") == Success(p.canCreate)
    ensures FlagField(PermissionAsDict(p), "canReadAll") == Success(p.canReadAll)
    ensures FlagField(PermissionAsDict(p), "canRead") == Success(p.canRead)
  {
  }

  /** The update and delete flags it reads back. */
  lemma PermissionDictWriteFields(p: Permission)
    ensures FlagField(PermissionAsDict(p), "canUpdateAll") == Success(p.canUpdateAll)
    ensures FlagField(PermissionAsDict(p), "canUpdate") == Success(p.canUpdate)
    ensures FlagField(PermissionAsDict(p), "canDeleteAll") == Success(p.canDeleteAll)
    ensures FlagField(PermissionAsDict(p), "canDelete") == Success(p.canDelete)
  {
  }

  /** Reading back what `as_dict` wrote keeps the label and all eight flags. */
  lemma PermissionRoundTrip(p: Permission)
    ensures DictToPermission(PermissionAsDict(p)) == Success(p.(id := None))
  {
    PermissionDictFields(p);
    PermissionDictWriteFields(p);
    var d := PermissionAsDict(p);
    assert DictToWriteFlags(d) == Success((p.canUpdateAll, p.canUpdate, p.canDeleteAll, p.canDelete));
  }

  /** A flag is stored True exactly when its entry holds `true`: a null
      flag falls back to the column default, False. */
  lemma PermissionFlagsDefaultFalse(v: Value)
    requires DictToPermission(v).Success?
    ensures var p := DictToPermission(v).value;
            && p.name == OptStrField(v, "label").value
            && p.canCreateAll == (v.fields["canCreateAll"] == Bool(true))
            && p.canCreate == (v.fields["canCreate"] == Bool(true))
            && p.canReadAll == (v.fields["canReadAll"] == Bool(true))
            && p.canRead == (v.fields["canRead"] == Bool(true))
            && p.canUpdateAll == (v.fields["canUpdateAll"] == Bool(true))
            && p.canUpdate == (v.fields["canUpdate"] == Bool(true))
            && p.canDeleteAll == (v.fields["canDeleteAll"] == Bool(true))
            && p.canDelete == (v.fields["canDelete"] == Bool(true))
  {
    var w := DictToWriteFlags(v).value;
    assert w.0 == (v.fields["canUpdateAll"] == Bool(true)) && w.1 == (v.fields["canUpdate"] == Bool(true));
    assert w.2 == (v.fields["canDeleteAll"] == Bool(true)) && w.3 == (v.fields["canDelete"] == Bool(true));
  }

  lemma PermissionsRoundTrip(ps: seq<Permission>)
    ensures DictToPermissions(seq(|ps|, i requires 0 <= i < |ps| => PermissionAsDict(ps[i])))
         == Success(seq(|ps|, i requires 0 <= i < |ps| => ps[i].(id := None)))
  {
    var ds := seq(|ps|, i requires 0 <= i < |ps| => PermissionAsDict(ps[i]));
    forall i | 0 <= i < |ps| {
      PermissionRoundTrip(ps[i]);
    }
    var r := DictToPermissions(ds);
    assert r.Success?;
    assert r.value == seq(|ps|, i requires 0 <= i < |ps| => ps[i].(id := None));
  }

  // ---------------------------------------------------------------------
  // Patterns and responses

  /** A language-tagged text: a row of `patterns` or of `responses` (the two
      tables have the same shape and the same converters). */
  datatype Phrase = Phrase(id: Option<int>, text: string, language: string)

  /** `Pattern.as_dict` and `Response.as_dict`. */
  function PhraseAsDict(p: Phrase): (d: Value)
    ensures d.Object? && d.fields.Keys == {"id", "label", "language"}
  {
    Object(map["id" := OptInt(p.id), "label" := Str(p.text), "language" := Str(p.language)])
  }

  function DictToPhrase(v: Value): Result<Phrase, Error> {
    var text :- StrField(v, "label");
    var language :- StrField(v, "language");
    Success(Phrase(None, text, language))
  }

  /** `Pattern.dict_to_patterns` and `Response.dict_to_patterns`. */
  function DictToPhrases(data: seq<Value>): (r: Result<seq<Phrase>, Error>)
    ensures r.Success? <==> forall i :: 0 <= i < |data| ==> DictToPhrase(data[i]).Success?
    ensures r.Failure? ==> exists i :: 0 <= i < |data| && DictToPhrase(data[i]) == Failure(r.error)
                                      && forall j :: 0 <= j < i ==> DictToPhrase(data[j]).Success?
    ensures r.Success? ==> |r.value| == |data|
    ensures r.Success? ==> forall i :: 0 <= i < |data| ==>
              r.value[i].id == None &&
              Field(data[i], "label") == Success(Str(r.value[i].text)) &&
              Field(data[i], "language") == Success(Str(r.value[i].language))
  {
    if |data| == 0 then Success([])
    else
      var p :- DictToPhrase(data[0]);
      var rest :- DictToPhrases(data[1..]);
      Success([p] + rest)
  }

  /** Reading back what `as_dict` wrote keeps length, order, label and language. */
  lemma PhrasesRoundTrip(ps: seq<Phrase>)
    ensures DictToPhrases(seq(|ps|, i requires 0 <= i < |ps| => PhraseAsDict(ps[i])))
         == Success(seq(|ps|, i requires 0 <= i < |ps| => ps[i].(id := None)))
  {
    var ds := seq(|ps|, i requires 0 <= i < |ps| => PhraseAsDict(ps[i]));
    var r := DictToPhrases(ds);
    assert r.Success?;
    assert r.value == seq(|ps|, i requires 0 <= i < |ps| => ps[i].(id := None));
  }

  // ---------------------------------------------------------------------
  // Contexts, contributions and the store

  /** A conversational intent. `related` holds the store positions of the
      contexts this one links to (the rows of the edge table whose main end
      is this context, in collection order). */
  datatype Context = Context(
    code: string,
    labels: PerLang<Option<string>>,
    propositions: PerLang<Option<string>>,
    patterns: seq<Phrase>,
    responses: seq<Phrase>,
    related: seq<nat>)

  datatype Status = Pending | Valid | Invalid

  function StatusName(s: Status): string {
    match s
    case Pending => "pending"
    case Valid => "valid"
    case Invalid => "invalid"
  }

  /** The `contribution_status` enum accepts exactly three names. */
  function ParseStatus(name: string): (r: Option<Status>)
    ensures r.Some? ==> StatusName(r.value) == name
    ensures r.None? <==> forall s: Status :: StatusName(s) != name
  {
    if name == "pending" then Some(Pending)
    else if name == "valid" then Some(Valid)
    else if name == "invalid" then Some(Invalid)
    else None
  }

  /** Every status is written under a name the enum reads back as that status. */
  lemma StatusRoundTrip(s: Status)
    ensures ParseStatus(StatusName(s)) == Some(s)
  {
  }

  type UserId = nat

  /** A timestamp, kept opaque: the model only copies and compares dates. */
  datatype Date = Date(stamp: string)

  /** The provenance record that owns exactly one context. */
  datatype Contribution = Contribution(
    title: string,
    description: Option<string>,
    status: Status,
    contributor: UserId,
    validator: Option<UserId>,
    createdAt: Date,
    validatedAt: Option<Date>,
    context: Context)

  /** `Contribution(title=..., contributor_id=..., context=...)` with every other
      column left to its default; `now` is the clock reading for `created_at`. */
  function NewContribution(title: string, contributor: UserId, context: Context, now: Date): (c: Contribution)
  {
    Contribution(title, None, Pending, contributor, None, now, None, context)
  }

  /** The contexts table, in insertion order; a context's id is its position. */
  type Store = seq<Contribution>

  predicate Distinct<T(==)>(s: seq<T>) {
    forall i, j :: 0 <= i < j < |s| ==> s[i] != s[j]
  }

  /** `contexts.code` is declared unique. */
  predicate UniqueCodes(store: Store) {
    forall i, j :: 0 <= i < j < |store| ==> store[i].context.code != store[j].context.code
  }

  /** Every edge names a stored context (the foreign keys of the edge table). */
  predicate EdgesResolve(store: Store) {
    forall i, k :: 0 <= i < |store| && 0 <= k < |store[i].context.related| ==>
      store[i].context.related[k] < |store|
  }

  /** The edge table's key is (main, related): no edge is stored twice. */
  predicate NoDuplicateEdges(store: Store) {
    forall i :: 0 <= i < |store| ==> Distinct(store[i].context.related)
  }

  predicate SchemaValid(store: Store) {
    UniqueCodes(store) && EdgesResolve(store) && NoDuplicateEdges(store)
  }

  /** Every edge points at a context stored before its source. */
  predicate EdgesBackward(store: Store) {
    forall i, k :: 0 <= i < |store| && 0 <= k < |store[i].context.related| ==>
      store[i].context.related[k] < i
  }

  /** `Context.query.filter_by(code=code).first()`. */
  function FindCode(store: Store, code: string): (r: Option<nat>)
    ensures r.Some? ==> r.value < |store| && store[r.value].context.code == code
    ensures r.Some? ==> forall j :: 0 <= j < r.value ==> store[j].context.code != code
    ensures r.None? <==> forall j :: 0 <= j < |store| ==> store[j].context.code != code
  {
    if |store| == 0 then None
    else if store[0].context.code == code then Some(0)
    else
      match FindCode(store[1..], code)
      case Some(i) => Some(i + 1)
      case None => None
  }

  /** Adding a contribution and committing it: the store rejects a context
      whose code is taken and a related list that names one target twice. */
  function Commit(store: Store, c: Contribution): (r: Result<Store, Error>)
    ensures r.Success? <==> FindCode(store, c.context.code).None? && Distinct(c.context.related)
    ensures r.Success? ==> r.value == store + [c]
    ensures FindCode(store, c.context.code).Some? ==> r == Failure(DuplicateCode(c.context.code))
  {
    if FindCode(store, c.context.code).Some? then Failure(DuplicateCode(c.context.code))
    else if !Distinct(c.context.related) then Failure(DuplicateEdge)
    else Success(store + [c])
  }

  /** A commit the store accepts keeps the schema valid when the new
      context links only stored contexts, and keeps every edge pointing
      backward. */
  lemma CommitKeepsSchema(store: Store, c: Contribution)
    requires Commit(store, c).Success? && SchemaValid(store)
    requires forall k :: 0 <= k < |c.context.related| ==> c.context.related[k] < |store|
    ensures SchemaValid(store + [c])
    ensures EdgesBackward(store) ==> EdgesBackward(store + [c])
  {
  }

  /** A walk along edges: each position is followed by one of its related contexts. */
  predicate IsPath(store: Store, p: seq<nat>) {
    (forall k :: 0 <= k < |p| ==> p[k] < |store|) &&
    forall k :: 0 <= k < |p| - 1 ==> p[k] < |store| && p[k + 1] in store[p[k]].context.related
  }

  /** When edges point backward every walk descends, so no walk returns to
      its start: the graph has no cycle and no context relates to itself. */
  lemma {:induction false} PathsDescend(store: Store, p: seq<nat>)
    requires EdgesBackward(store) && IsPath(store, p) && |p| >= 2
    ensures p[|p| - 1] < p[0]
    decreases |p|
  {
    assert p[1] < p[0] by {
      var k :| 0 <= k < |store[p[0]].context.related| && store[p[0]].context.related[k] == p[1];
    }
    if |p| > 2 {
      assert IsPath(store, p[1..]);
      PathsDescend(store, p[1..]);
    }
  }

  /** The keys `Context.as_dict` writes. */
  const ContextKeys: set<string> := {"id", "code", "labelEn", "labelFr", "labelAr",
                                     "propositionEn", "propositionFr", "propositionAr",
                                     "patterns", "responses", "contexts"}

  /** The value `Context.as_dict` writes under `key` for the context at `i`. */
  function ContextEntry(store: Store, i: nat, key: string): Value
    requires i < |store| && EdgesBackward(store)
    decreases i, 0
  {
    var c := store[i].context;
    if key == "code" then Str(c.code)
    else if key == "labelEn" then OptStr(c.labels.en)
    else if key == "labelFr" then OptStr(c.labels.fr)
    else if key == "labelAr" then OptStr(c.labels.ar)
    else if key == "propositionEn" then OptStr(c.propositions.en)
    else if key == "propositionFr" then OptStr(c.propositions.fr)
    else if key == "propositionAr" then OptStr(c.propositions.ar)
    else if key == "patterns" then
      List(seq(|c.patterns|, k requires 0 <= k < |c.patterns| => PhraseAsDict(c.patterns[k])))
    else if key == "responses" then
      List(seq(|c.responses|, k requires 0 <= k < |c.responses| => PhraseAsDict(c.responses[k])))
    else if key == "contexts" then
      List(seq(|c.related|, k requires 0 <= k < |c.related| => ContextAsDict(store, c.related[k])))
    else Int(i)
  }

  /** `Context.as_dict`; the related contexts are rendered recursively, which
      terminates because edges point backward. */
  function ContextAsDict(store: Store, i: nat): (d: Value)
    requires i < |store| && EdgesBackward(store)
    ensures d.Object? && d.fields.Keys == ContextKeys
    ensures d.fields["code"] == Str(store[i].context.code)
    ensures forall l: Lang ::
              d.fields[LabelKey(l)] == OptStr(store[i].context.labels.Get(l)) &&
              d.fields[PropositionKey(l)] == OptStr(store[i].context.propositions.Get(l))
    ensures d.fields["patterns"].List?
    ensures d.fields["patterns"].items == seq(|store[i].context.patterns|,
              k requires 0 <= k < |store[i].context.patterns| => PhraseAsDict(store[i].context.patterns[k]))
    ensures d.fields["responses"].List?
    ensures d.fields["responses"].items == seq(|store[i].context.responses|,
              k requires 0 <= k < |store[i].context.responses| => PhraseAsDict(store[i].context.responses[k]))
    ensures d.fields["contexts"].List? && |d.fields["contexts"].items| == |store[i].context.related|
    ensures forall k :: 0 <= k < |store[i].context.related| ==>
              d.fields["contexts"].items[k].Object? &&
              "code" in d.fields["contexts"].items[k].fields &&
              d.fields["contexts"].items[k].fields["code"] == Str(store[store[i].context.related[k]].context.code)
    decreases i, 1
  {
    Object(map key | key in ContextKeys :: ContextEntry(store, i, key))
  }

  /** The `as_dict` keys of the per-language columns. */
  function LabelKey(l: Lang): string {
    match l
    case En => "labelEn"
    case Fr => "labelFr"
    case Ar => "labelAr"
  }

  function PropositionKey(l: Lang): string {
    match l
    case En => "propositionEn"
    case Fr => "propositionFr"
    case Ar => "propositionAr"
  }

  /** The per-language column names, which are also the keys `dict_to_contexts` reads. */
  function LabelColumn(l: Lang): string {
    match l
    case En => "label_en"
    case Fr => "label_fr"
    case Ar => "label_ar"
  }

  function PropositionColumn(l: Lang): string {
    match l
    case En => "proposition_en"
    case Fr => "proposition_fr"
    case Ar => "proposition_ar"
  }

  /** One entry of `Context.dict_to_contexts`, keys read in argument order. */
  function DictToContext(v: Value): (r: Result<Context, Error>)
    ensures r.Success? <==>
              StrField(v, "code").Success? &&
              forall l: Lang :: OptStrField(v, LabelColumn(l)).Success? && OptStrField(v, PropositionColumn(l)).Success?
    ensures r.Success? ==> r.value.patterns == [] && r.value.responses == [] && r.value.related == []
    ensures r.Success? ==> Field(v, "code") == Success(Str(r.value.code))
    ensures r.Success? ==> forall l: Lang ::
              Field(v, LabelColumn(l)) == Success(OptStr(r.value.labels.Get(l))) &&
              Field(v, PropositionColumn(l)) == Success(OptStr(r.value.propositions.Get(l)))
  {
    assert LabelColumn(En) == "label_en" && LabelColumn(Fr) == "label_fr" && LabelColumn(Ar) == "label_ar";
    assert PropositionColumn(En) == "proposition_en" && PropositionColumn(Fr) == "proposition_fr"
        && PropositionColumn(Ar) == "proposition_ar";
    var code :- StrField(v, "code");
    var labelEn :- OptStrField(v, "label_en");
    var labelFr :- OptStrField(v, "label_fr");
    var labelAr :- OptStrField(v, "label_ar");
    var propositionEn :- OptStrField(v, "proposition_en");
    var propositionFr :- OptStrField(v, "proposition_fr");
    var propositionAr :- OptStrField(v, "proposition_ar");
    Success(Context(code, PerLang(labelEn, labelFr, labelAr),
                    PerLang(propositionEn, propositionFr, propositionAr), [], [], []))
  }

  /** `Context.dict_to_contexts`: one bare context per entry, in order. */
  function DictToContexts(data: seq<Value>): (r: Result<seq<Context>, Error>)
    ensures r.Success? <==> forall i :: 0 <= i < |data| ==> DictToContext(data[i]).Success?
    ensures r.Failure? ==> exists i :: 0 <= i < |data| && DictToContext(data[i]) == Failure(r.error)
                                      && forall j :: 0 <= j < i ==> DictToContext(data[j]).Success?
    ensures r.Success? ==> |r.value| == |data|
    ensures r.Success? ==> forall i :: 0 <= i < |data| ==> DictToContext(data[i]) == Success(r.value[i])
  {
    if |data| == 0 then Success([])
    else
      var c :- DictToContext(data[0]);
      var rest :- DictToContexts(data[1..]);
      Success([c] + rest)
  }

  /** `as_dict` writes camel-case label keys while `dict_to_contexts` reads
      snake-case ones, so a context's own dict is not accepted back. */
  lemma ContextDictNotReadBack(store: Store, i: nat)
    requires i < |store| && EdgesBackward(store)
    ensures DictToContext(ContextAsDict(store, i)) == Failure(MissingKey("label_en"))
  {
    var d := ContextAsDict(store, i);
    assert "label_en" !in d.fields;
  }

  function DateValue(d: Date): Value {
    Str(d.stamp)
  }

  function OptDate(o: Option<Date>): Value {
    match o
    case Some(d) => DateValue(d)
    case None => Null
  }

  /** `user.as_dict() if user else None`. */
  function OptUser(o: Option<UserId>, userDict: UserId -> Value): Value {
    match o
    case Some(u) => userDict(u)
    case None => Null
  }

  /** The keys `Contribution.as_dict` writes. */
  const ContributionKeys: set<string> := {"id", "title", "description", "status", "context",
                                          "createdAt", "validatedAt", "contributor", "validator"}

  /** The value `Contribution.as_dict` writes under `key` for the contribution at `i`. */
  function ContributionEntry(store: Store, i: nat, userDict: UserId -> Value, key: string): Value
    requires i < |store| && EdgesBackward(store)
  {
    var c := store[i];
    if key == "title" then Str(c.title)
    else if key == "description" then OptStr(c.description)
    else if key == "status" then Str(StatusName(c.status))
    else if key == "context" then ContextAsDict(store, i)
    else if key == "createdAt" then DateValue(c.createdAt)
    else if key == "validatedAt" then OptDate(c.validatedAt)
    else if key == "contributor" then userDict(c.contributor)
    else if key == "validator" then OptUser(c.validator, userDict)
    else Int(i)
  }

  /** `Contribution.as_dict`; `userDict` stands for `User.as_dict`. */
  function ContributionAsDict(store: Store, i: nat, userDict: UserId -> Value): (d: Value)
    requires i < |store| && EdgesBackward(store)
    ensures d.Object? && d.fields.Keys == ContributionKeys
    ensures d.fields["status"] == Str(StatusName(store[i].status))
    ensures d.fields["context"] == ContextAsDict(store, i)
    ensures store[i].validator.None? ==> d.fields["validator"] == Null
    ensures store[i].validator.Some? ==> d.fields["validator"] == userDict(store[i].validator.value)
  {
    Object(map key | key in ContributionKeys :: ContributionEntry(store, i, userDict, key))
  }

  /** A contribution created with its column defaults reports itself as
      pending, unvalidated and undescribed, created at the clock reading. */
  lemma NewContributionAsDict(store: Store, i: nat, userDict: UserId -> Value,
                              title: string, contributor: UserId, context: Context, now: Date)
    requires i < |store| && EdgesBackward(store)
    requires store[i] == NewContribution(title, contributor, context, now)
    ensures var d := ContributionAsDict(store, i, userDict);
            && d.fields["status"] == Str("pending")
            && d.fields["validator"] == Null
            && d.fields["validatedAt"] == Null
            && d.fields["description"] == Null
            && d.fields["createdAt"] == Str(now.stamp)
            && d.fields["title"] == Str(title)
            && d.fields["contributor"] == userDict(contributor)
  {
    var d := ContributionAsDict(store, i, userDict);
    assert d.fields["validatedAt"] == ContributionEntry(store, i, userDict, "validatedAt");
    assert d.fields["description"] == ContributionEntry(store, i, userDict, "description");
    assert d.fields["createdAt"] == ContributionEntry(store, i, userDict, "createdAt");
    assert d.fields["title"] == ContributionEntry(store, i, userDict, "title");
    assert d.fields["contributor"] == ContributionEntry(store, i, userDict, "contributor");
  }

  // ---------------------------------------------------------------------
  // Roles and users

  datatype Role = Role(name: Option<string>, permissions: seq<Permission>)

  datatype User = User(username: string, role: nat)
}
