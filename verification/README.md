# Friendy knowledge graph and training data, in Dafny

Friendy is a multilingual chatbot backend. This project models two parts of it.

The first is how the knowledge graph of intents ("contexts") is seeded:
- `save_data` stores the records of one language.
- The bulk merge in `initialize_database` joins the English, French and Arabic records of each index into one context.
- The three table-emptiness guards of `initialize_database` decide which of its steps run.

The second is how `train_model` prepares its training data from that graph:
- the sorted class list;
- the patterns of a language;
- the lemmatised vocabulary;
- the (tokens, label) documents;
- their bag-of-words and one-hot encodings;
- the shuffle.

The entity records and their dict converters are modelled too.

Files:
- `wrappers.dfy`: `Option` (Python's `None`), `Result` (a raised exception), and `Run`, the state a commit loop leaves behind with the exception that stopped it.
- `lex.dfy`: Python's ordering of `str`. It defines `sorted` with duplicates kept (the class list) and `sorted(set(...))` (the vocabulary). It proves that each is determined by its input's contents.
- `models.dfy`: permissions, patterns and responses, contexts, contributions, roles and users; the JSON values the converters read and write; and the store with its schema:
  - `contexts.code` is unique;
  - the `related_contexts` edge table has the key (main, related) and foreign keys into `contexts`.
- `ingest.dfy`: `save_data`, the bulk merge and `initialize_database`. Both seeding loops are one fold, `CommitDown`. It builds the record of each index against the current store and commits it before building the next, from the last index down. Its lemmas are proved once for any record builder.
- `train.dfy`: `get_classes`, `get_patterns`, `get_words`, `get_label`, the documents loop, the vector encoding, `random.shuffle` and the `train_x`/`train_y` split.

Modelling choices:
- The store is the `contexts` table in insertion order. A context's id is its position, and its related contexts are positions.
- A Python exception is a `Failure` carrying an `Error` constructor. A loop that commits per record returns the records committed before the failure.
- The tokenizer (`nltk.word_tokenize`), the lemmatizer (`WordNetLemmatizer.lemmatize`) and the random source are function parameters. `draws(i) % (i + 1)` stands for `randbelow(i + 1)`.
- The clock reading is a parameter `now`. The administrator's user name is a parameter `adminName`. The JSON files are parameters: the roles as `Value`s, and the seed records as `SeedRecord`s.

Behaviour of the code worth knowing, each stated by a member:
- **Class list.** `get_classes` sorts the whole label column of the language. Duplicate labels are kept, and a context without a label makes `sorted` raise once the column has two or more entries (`Train.GetClasses`).
- **Patterns.** Neither seeding path removes repeated patterns; every pattern of a record is appended (`Ingest.MergeSeedContent`, `Ingest.SaveContext`).
- **Related contexts.** Only the bulk merge removes repeated targets (`Ingest.LinkIsDedupedResolve`). `save_data` links a context once for every `to` code that finds it (`Ingest.ResolveAllCounts`). A code listed twice is therefore refused by the edge table's key (`Ingest.RepeatedTargetRejected`).
- **Encoding.** The vocabulary holds lemmas, but the encoder tests each vocabulary word against the raw tokens of the document. A word seen only in an inflected form never sets its own entry (`Train.RawTokensMissTheirLemmas`).

## Model

| member | source | states |
|---|---|---|
| Lex.SortStrings | server/model/train.py:39 | `sorted` returns its input reordered (the same multiset) in non-decreasing Python string order |
| Lex.SortedUnique | server/model/train.py:39 | two sorted permutations of the same strings are equal, so `sorted` depends only on the multiset of its input |
| Lex.SortDistinct | server/model/train.py:66 | `sorted(set(xs))` is strictly increasing and holds a string exactly when `xs` does |
| Lex.StrictlySortedUnique | server/model/train.py:66 | a strictly increasing list is determined by its elements, so the vocabulary does not depend on set iteration order |
| Models.PermissionAsDict | server/database/models.py:46-58 | `Permission.as_dict` writes exactly the ten keys, the id under `id`, a Boolean under each flag key and a string or null label; with `Models.PermissionRoundTrip` this fixes every value it writes |
| Models.DictToPermission | server/database/models.py:64-74 | an entry converts exactly when its label is a string or null and each of the eight flags is present and a Boolean or null |
| Models.DictToPermissions | server/database/models.py:60-75 | one permission per entry, in order; succeeds exactly when every entry converts; on failure, the error is that of an entry all of whose predecessors convert |
| Models.PermissionFlagsDefaultFalse | server/database/models.py:36-43 | a converted flag is True exactly when its entry holds `true`, so a null flag gets the column default False; the label is the entry's |
| Models.PermissionRoundTrip | server/database/models.py:46-75 | reading back what `as_dict` wrote gives the same permission with no id: label and all eight flags survive |
| Models.PermissionsRoundTrip | server/database/models.py:60-75 | the same for a whole list, length and order kept |
| Models.PhraseAsDict | server/database/models.py:212-217 | a pattern or response dict has exactly the keys `id`, `label`, `language` |
| Models.DictToPhrases | server/database/models.py:219-224 | one unsaved pattern per entry; succeeds exactly when every entry converts, and otherwise fails with the error of the first entry that does not; each result carries its entry's `label` and `language` |
| Models.PhrasesRoundTrip | server/database/models.py:212-224 | reading back what `as_dict` wrote keeps length, order, text and language |
| Models.ParseStatus | server/database/models.py:110 | the `contribution_status` enum accepts exactly the names `pending`, `valid`, `invalid` |
| Models.StatusRoundTrip | server/database/models.py:110 | every status is written under a name the enum reads back as that status |
| Models.NewContributionAsDict | server/database/models.py:105-129 | a contribution created with its column defaults is reported by `as_dict` as `pending`, with a null validator, validation date and description, and created at the clock reading |
| Models.FindCode | server/database/initialization.py:25 | `filter_by(code=...).first()` returns the first context with the code, and none exactly when no stored context has it |
| Models.Commit | server/database/initialization.py:51-52 | a commit succeeds exactly when the code is new and no target is named twice; then the contribution is appended; a taken code raises the unique-code error |
| Models.CommitKeepsSchema | server/database/models.py:9-13 | an accepted commit whose targets are stored keeps codes unique, edges resolving and edges distinct, and keeps every edge pointing backward |
| Models.PathsDescend | server/database/models.py:166-172 | when every edge points backward, every walk along related contexts ends below where it started: the graph has no cycle |
| Models.ContextAsDict | server/database/models.py:174-187 | `Context.as_dict` writes the eleven keys, the code and the per-language labels and propositions, the pattern and response dicts in order, and one dict per related context carrying that context's code |
| Models.DictToContext | server/database/models.py:189-202 | an entry converts exactly when its code is a string and its six label and proposition columns are strings or null; a converted context has the entry's code and per-language columns, and no patterns, responses or related contexts |
| Models.DictToContexts | server/database/models.py:189-202 | one context per entry, in order; succeeds exactly when every entry converts, and otherwise fails with the error of the first entry that does not |
| Models.ContextDictNotReadBack | server/database/models.py:174-202 | `dict_to_contexts` rejects `as_dict` output with a missing `label_en` key, because `as_dict` writes camel-case keys |
| Models.ContributionAsDict | server/database/models.py:118-129 | `Contribution.as_dict` writes the nine keys, the status name, the context's own dict, and a null validator exactly when there is none |
| Ingest.ResolveAll | server/database/initialization.py:24-27 | save_data's target list is no longer than `to`, and every entry is a stored context |
| Ingest.ResolveAllCounts | server/database/initialization.py:24-27 | each context occurs in save_data's target list exactly as often as a `to` code finds it |
| Ingest.ResolveAllMembers | server/database/initialization.py:24-27 | a context is a save_data target exactly when some `to` code finds it |
| Ingest.Link | server/database/initialization.py:128-132 | the bulk loop only appends to the gathered targets, keeps them free of repeats, and keeps them inside the store |
| Ingest.LinkMembers | server/database/initialization.py:128-132 | a context is gathered exactly when it was already gathered or some `to` code finds it |
| Ingest.LinkIsDedupedResolve | server/database/initialization.py:128-132 | the bulk loop's targets are save_data's targets with repeats removed, in first-seen order |
| Ingest.MergeSeedContent | server/database/initialization.py:117-127 | the merged context takes the Arabic record's code, one label and one proposition per language, and the three records' patterns and responses in language order, each tagged with its language |
| Ingest.MergeSeedLinks | server/database/initialization.py:128-132 | the merged related list is the de-duplicated resolution of all three `to` lists; it has no repeats, stays inside the store, and holds a context exactly when some code finds it |
| Ingest.MergeSeedLinksByCode | server/database/initialization.py:128-132 | against a store with unique codes, the merged context links a stored context exactly when its code is listed in some `to` |
| Ingest.CommitDownAppends | server/database/initialization.py:106-159 | the loop only appends, at most one record per index, and raises nothing exactly when every index is committed |
| Ingest.CommitDownStops | server/database/initialization.py:106-159 | a failed loop stops at the first failure: the index after the last committed one (`k - 1 - n` once `n` records are in) either could not be built, with the raised error, or was refused by the store with that error; nothing after it is committed |
| Ingest.CommitDownOrder | server/database/initialization.py:106-159 | the record at each new position is the one built for index `k - 1 - q`, against exactly the contexts stored before it, and the store accepted it |
| Ingest.CommitDownKeepsSchema | server/database/initialization.py:106-159 | when records link only stored contexts, the loop keeps the schema valid and every edge pointing backward |
| Ingest.CommitDownLinks | server/database/initialization.py:128-132 | when each built record links exactly the stored contexts its codes name, each committed record links exactly the earlier contexts so named |
| Ingest.CommitDownCompletes | server/database/initialization.py:106-159 | the loop commits every index when every record builds, names no target twice, and has a code that is new and distinct from the others |
| Ingest.BuildSeed | server/database/initialization.py:113-157 | builds the contribution of an index exactly when the English record has its metadata, all three records exist and the administrator exists; a record without metadata raises the missing-`title` error and a missing French or Arabic record the index error; the contribution is valid, created and validated at the record's date by the administrator |
| Ingest.SeedFrom | server/database/initialization.py:106-159 | the bulk loop only appends to the contexts, at most one per index, and raises nothing exactly when every index is committed; which record lands where is `Ingest.CommitDownOrder`, and where it stops is `Ingest.SeedStops` |
| Ingest.SeedStops | server/database/initialization.py:106-159 | a failed bulk loop stops at the index after the last one committed; building the merged record for that index failed with the raised error, or the store refused it with that error |
| Ingest.SeedKeepsSchema | server/database/initialization.py:106-159 | bulk seeding keeps the schema valid and every edge pointing backward |
| Ingest.SeedLinksOnlyEarlierContexts | server/database/initialization.py:128-132 | each seeded context links exactly the earlier contexts whose code its three records list; a code naming no stored context is dropped, and no context links itself or a later one |
| Ingest.SeedCompletes | server/database/initialization.py:106-159 | with well-formed records, an administrator, and Arabic codes that are distinct and new, every index is committed |
| Ingest.SeededContextsAreLabelled | server/database/initialization.py:117-122 | every context the bulk seed adds has a label in all three languages |
| Ingest.SaveContext | server/database/initialization.py:14-49 | save_data's context sets only the label and proposition of a recognised language, tags every phrase with the language, and links every resolved target without removing repeats |
| Ingest.SaveRecord | server/database/initialization.py:29-50 | save_data's contribution exists exactly when the administrator does; it is titled `NO TITLE`, valid, and contributed and validated by the administrator at the clock reading |
| Ingest.SaveData | server/database/initialization.py:7-52 | save_data only appends to the contexts, at most one per record, and raises nothing exactly when every record is committed; where it stops is `Ingest.SaveDataStops` |
| Ingest.SaveDataStops | server/database/initialization.py:7-52 | a failed save_data stops at the record after the last one committed (records are taken last first): that record could not be built (no administrator) with the raised error, or the store refused it with that error |
| Ingest.SaveDataKeepsSchema | server/database/initialization.py:7-52 | save_data keeps the schema valid and every edge pointing backward |
| Ingest.RepeatedCodeResolvesTwice | server/database/initialization.py:24-27 | a stored code listed twice in `to` puts the same target twice in save_data's list |
| Ingest.RepeatedTargetRejected | server/database/initialization.py:24-27 | save_data's commit of such a record fails on the edge key, while the bulk loop's list for the same codes has no repeats |
| Ingest.FindRole | server/database/initialization.py:71 | `filter_by(label=...).first()` returns the first role with the label, and none exactly when no role has it |
| Ingest.FindUser | server/database/initialization.py:135 | `filter_by(username=...).first()` returns the first user with the name, and none exactly when no user has it |
| Ingest.SeedRole | server/database/initialization.py:59-66 | a committed role is appended after the existing roles, and unique role labels stay unique |
| Ingest.SeedRoleOutcome | server/database/initialization.py:59-66 | the label is read first, then `permissions` is iterated (a list's items, or nothing for an empty dict or string) and converted, each failure raising in that order; a label already taken raises the unique-label error; otherwise the role is appended with that label and those permissions |
| Ingest.SeedRoles | server/database/initialization.py:57-66 | the roles loop keeps the existing roles, adds at most one role per entry, and raises nothing exactly when it adds one role for every entry |
| Ingest.SeedRolesSteps | server/database/initialization.py:59-66 | the role added for entry `q` is what `SeedRole` builds from that entry against the roles committed before it |
| Ingest.SeedRolesStops | server/database/initialization.py:59-66 | a failed loop stops at the first entry that raises, with that entry's error, keeping the roles committed before it |
| Ingest.SeedRolesKeepLabelsUnique | server/database/models.py:19 | seeding roles into a table with unique labels keeps them unique |
| Ingest.InitializeDatabase | server/database/initialization.py:55-106 | each of the three steps runs exactly when its table is empty: non-empty tables are left unchanged; an empty roles table gets the roles loop's result, and its failure ends the run; an empty users table gets the one administrator user, or the run fails with the missing-role error when no role is labelled `administrator`; once both steps pass, an empty context table gets the bulk loop's result over all English indices, with that loop's failure, and a non-empty one ends the run without failure |
| Ingest.InitializedGraphIsWellFormed | server/database/initialization.py:86-159 | a graph seeded into an empty table satisfies the schema, has every edge pointing backward, and labels every context in all three languages |
| Train.SortColumn | server/model/train.py:39 | `sorted` on a label column raises exactly when it has two or more entries and a null; otherwise it returns the column's entries in order |
| Train.GetClasses | server/model/train.py:25-39 | an unrecognised language gives no classes; otherwise the classes are the language's label column, sorted, with the failure above |
| Train.SortColumnIgnoresOrder | server/model/train.py:39 | sorting a column gives the same outcome for any permutation of it |
| Train.ClassesIgnoreRowOrder | server/model/train.py:32-39 | stores whose label columns are permutations of each other get the same classes |
| Train.GetLabel | server/model/train.py:69-82 | the context's label in a recognised language, the empty string otherwise |
| Train.TextsInMembers | server/model/train.py:103 | a text is among the language's patterns of a context exactly when some pattern has that text and language |
| Train.SeededPatternsByLanguage | server/database/initialization.py:124-125 | a merged context offers each language exactly that language's record's patterns, in file order |
| Train.GetPatterns | server/model/train.py:42-51 | the pattern table filtered by language, in commit order; its contents are stated by `Train.GetPatternsMembers`, and its positions by `Train.DocumentsByContext` |
| Train.GetPatternsMembers | server/model/train.py:42-51 | a text is a pattern of the language exactly when some stored context has a pattern with that text in that language |
| Train.Documents | server/model/train.py:100-104 | one document per pattern that `get_patterns` returns for the language |
| Train.DocumentsFollowPatterns | server/model/train.py:100-104 | the documents walk the language's patterns one for one and in order, each holding its pattern's tokens |
| Train.DocumentsCarryOwnersLabel | server/model/train.py:100-104 | document `i` holds the tokens of the `i`-th pattern of the language and the label of a context that owns that pattern |
| Train.DocumentsByContext | server/model/train.py:101-104 | the `m`-th pattern in the language of context `c` is document `o + m`, where `o` counts the patterns of the contexts before `c`; that document holds the pattern's tokens and the label of the context the pattern belongs to |
| Train.IgnoredLettersAreSinglePunctuation | server/model/train.py:20 | there are 32 ignored letters, and a token is ignored exactly when it is one punctuation character |
| Train.TokensMembers | server/model/train.py:62-64 | a token is gathered exactly when the tokenizer yields it for some pattern |
| Train.KeptLemmasMembers | server/model/train.py:65 | a word is kept exactly when it is the lemma of a token that is not ignored |
| Train.GetWords | server/model/train.py:54-66 | the vocabulary is strictly increasing; its members are stated by `Train.VocabularyMembers` |
| Train.VocabularyMembers | server/model/train.py:54-66 | the vocabulary is strictly increasing, hence free of repeats, and holds a word exactly when it is the lemma of a non-ignored token of some pattern |
| Train.VocabularyIsUnique | server/model/train.py:66 | the vocabulary is the only strictly increasing list of the kept lemmas, so it does not depend on the order the set is walked in |
| Train.PresenceCountsWords | server/model/train.py:109-113 | with a repeat-free vocabulary, the ones in an input vector count the vocabulary words the document contains |
| Train.IndexOf | server/model/train.py:113 | `list.index` returns the first position holding the value |
| Train.EncodeInput | server/model/train.py:109-113 | the input vector has one entry per word, 1 exactly at the first position of each word found among the tokens, and equals the bag-of-words when the vocabulary has no repeats |
| Train.RawTokensMissTheirLemmas | server/model/train.py:62-113 | with a lemmatizer mapping `cats` to `cat`, the pattern `cats` gives the vocabulary `["cat"]` but its own document encodes to `[0]` |
| Train.OneHotOnes | server/model/train.py:114 | a one-hot vector has a single 1 when its index is in range, and none otherwise |
| Train.OutputVector | server/model/train.py:110-114 | the output vector exists exactly when the label is a class; it is as long as the classes, with a single 1 at the label's first position; otherwise the lookup error |
| Train.EncodeDocuments | server/model/train.py:106-115 | encoding succeeds exactly when every document's label is a class; row `i` pairs document `i`'s bag-of-words with its one-hot label |
| Train.Shuffle | server/model/train.py:117 | `random.shuffle` permutes the rows and leaves those past the shuffled prefix alone |
| Train.ColumnsParallel | server/model/train.py:118-121 | `train_x` and `train_y` are as long as the training set, and row `i` is the pair of their `i`-th entries |
| Train.PrepareTraining | server/model/train.py:95-121 | preparation succeeds exactly when the classes sort, there is a document, and every document's label is a class; it keeps the classes and vocabulary, and the rows are a permutation of the encoded documents; a failure reports, in this order, classes that do not sort, a document label that is not a class, or an empty training set |
| Train.TrainingRows | server/model/train.py:106-121 | a prepared set has one row per pattern of the language; each input is as long as the vocabulary, and each output is one-hot over the classes |
| Train.LabelledStoreTrains | server/model/train.py:95-115 | when every context has a label in the language and the language has patterns, preparation succeeds |
| Train.UnsupportedLanguageCannotTrain | server/model/train.py:75-114 | in a language with no label column, preparation always fails |
| Train.InitializedDatabaseTrains | server/model/train.py:95-121 | after seeding an empty database, preparation succeeds in each language that has patterns |

## Left out

- The SQL session is left out: flushing, transactions, the identity map and relationship loading. A commit is the append `Models.Commit`, and the rows of a table are read in insertion order.
- The JSON files and `json.loads` are left out; the decoded data are parameters. A seed record's fields are typed, so a missing or mistyped key in a seed record is not modelled. The exception is the English metadata, whose absence raises `MissingKey("title")`.
- `pd.isnull` on a proposition is left out: a seed record's proposition is already `None` for a null or NaN value.
- Dates are opaque strings: `strptime` and the timestamp columns are not parsed, so a malformed seed date is not an error in the model.
- save_data reads the clock twice, once for the `created_at` default and once for `validated_at`. The model uses one reading `now` for both.
- The administrator's password and personal columns are left out. Its user name is the parameter `adminName`, whereas the source fixes it.
- Ingest.SeedRole: a role `label` that is neither a string nor null fails with `WrongType`. The source's `Role(label=...)` accepts any value and leaves it to the database driver.
- Ingest.SeedRole: every failure of `dict_to_permissions` on a `permissions` value that is not a list is `WrongType`. The source raises `TypeError`, either because the value cannot be iterated or because a dict key or a character cannot be subscripted by `'label'`. An empty dict or string gives no permissions in both.
- Models.DictToPermissions: a `label` that is neither a string nor null, and a flag that is neither a Boolean nor null, fail with `WrongType`. The source's constructor accepts any value and leaves it to the database driver. A null flag is modelled as the ORM stores it: the attribute is left out of the INSERT and the column default False applies.
- Models.DictToPhrases: a `label` or `language` that is not a string fails with `WrongType`. The source's `Pattern(...)` accepts any value, and a null is only refused by the non-null columns at commit.
- Models.DictToContext: a `code`, label or proposition of the wrong type fails with `WrongType`. The source's `Context(...)` accepts any value; a null code in particular would be stored.
- Contexts with a null `code` are not modelled; a code is always a string.
- Storage ids of patterns, responses and permissions are left out: a converted row has no id.
- Models.ContextAsDict: requires every edge to point backward. On a cycle of related contexts the source recurses until Python raises `RecursionError`. Every graph the seeding paths build meets the requirement (`Ingest.InitializedGraphIsWellFormed`).
- `Role.as_dict`, `User.as_dict` and the `Model` table are left out. `userDict` stands for `User.as_dict` in `Models.ContributionAsDict`.
- Train.PrepareTraining: the rows are stated up to permutation; the exact order depends on the random draws.
- The input and output vectors are `np.zeros` float arrays in the source and integer lists in the model. Only the values 0.0 and 1.0 are ever stored, and both are exact, so nothing is lost.
- The numpy conversion `np.array(training)` is left out. For a non-empty set, the model takes the columns directly. numpy's behaviour on rows whose input and output lengths differ is not modelled. An empty set fails with `EmptyTrainingSet`.
- Training the Keras model, pickling the vocabulary and classes, and creating the output folder are left out: floating point, files and a foreign library.
- The tokenizer and lemmatizer are parameters. Their behaviour, such as lower-casing and splitting contractions, is not modelled.
