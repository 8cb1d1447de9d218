# debian-tools: latest-source table, reverse indexes and reverse-dependency graph

This project models two parts of the Debian archive tools:

- `parse_source_pkgs` and `is_python2_dep` in `common.py`;
- `generate_rdeps_graph` and `RELS` in `rdeps.py`.

**The latest-source table.** `parse_source_pkgs` reads the Sources paragraphs of main, contrib and non-free in order. It keeps one 8-field record per source name. A later paragraph replaces the kept one only when `apt_pkg.version_compare` says its version is strictly newer.

**Binaries and reverse indexes.** From the kept records it derives `latestbinpkgs`, the union of the `Binary` fields split on `", "`. It also builds four reverse-dependency maps: Build-Depends, Build-Depends-Indep, Build-Depends-Arch and Testsuite-Triggers. Each maps the first token of every non-empty relation clause to the sources that name it.

**The Python 2 predicate.** `is_python2_dep` judges a dependency name by its prefixes and suffixes alone.

**The reverse-dependency graph.** `generate_rdeps_graph` drains a LIFO worklist of (name, level) pairs. It visits each current binary of the archive at most once, and only up to the level bound; a visited name is expanded when it is in the apt cache. An expansion adds a coloured node and a labelled edge for:

- every runtime reverse dependency whose parent is a current binary and whose relationship is Depends or Recommends; these parents are pushed one level deeper;
- every source in one of the four maps; these are not pushed.

**Modules**, one per concept, in dependency order:

| file | module | what it holds |
|---|---|---|
| `results.dfy` | `Results` | `Option`, and `Result` for Python exceptions |
| `pystr.dfy` | `PyStr` | `startswith`/`endswith`, `str.split(', ')`, `str.split()[0]`, decimal text |
| `version_order.dfy` | `VersionOrder` | the version comparator, abstract, assumed to be a total preorder |
| `source_table.dfy` | `SourceTable` | paragraphs, the 8-field record, the merge and `latestbinpkgs` |
| `reverse_index.dfy` | `ReverseIndex` | the four reverse-dependency maps |
| `parse_sources.dfy` | `ParseSources` | `parse_source_pkgs` as a whole: table, binaries and maps together |
| `python2.dfy` | `Python2` | `is_python2_dep` |
| `classify.dfy` | `Classify` | node colours |
| `rdeps.dfy` | `Rdeps` | edge labels, one expansion, and the walk |

## How each behaviour is modelled

**The graph.** It is two sequences, node additions and edges. Duplicates are kept, as `pydot.Dot(simplify=False)` keeps them. Edge labels are structured as (kind, level), and `Rdeps.LabelRoundTrip` proves that the text label determines both.

**The apt cache.** It is a map from a binary name to its reverse dependencies. Each reverse dependency is a (parent, relationship, parent section) triple.

**Omitted testing arguments.** An omitted `testing_sources` or `testing_binaries` (`None`) is the empty set. The code only tests these arguments for truth and for membership, so the two behave the same.

**Python exceptions.** Each one becomes a `Failure`:

- a missing required field (`KeyError`);
- a clause made only of whitespace (`IndexError` of `split()[0]`);
- `unstable_sources` being `None`;
- a binary that no kept source lists (the `[0]` of rdeps.py:44 and rdeps.py:49).

**The walk's trace.** `GenerateRdepsGraph` also returns the visits in order, because its contract is stated in terms of them. A visit is a popped item that is a current, not yet visited name within the level bound; its name is expanded only when it is in the cache.

**The visiting order.** `Rdeps.VisitOrder` is a reference definition of the order `todo.pop()` imposes: the most recently pushed item comes next, and a visited item's parents go on top of the rest of the worklist. The walk's visits are exactly `VisitOrder` from `[(target, 1)]`. The order matters: a name reachable at several levels is visited at the level of its first pop, which need not be the smallest, and its parents beyond the level bound are then never reached.

**Details of the program the model keeps.**

- The tuple at common.py:15 reads `x['Version']`, `x['Binary']` and `x['Maintainer']` in that order, so the `KeyError` raised names the first of them that is missing. `SourceTable.RecordOf` reports the same field.
- For a name already kept, common.py:17-18 read only `x['Version']` before deciding. A paragraph that is not newer is therefore never read further, and it may lack Binary or Maintainer without error (`SourceTable.MergeSkipsNotNewer`).

Where the model departs from the program, the departure is listed under "Left out".

## Model

| member | source | states |
|---|---|---|
| PyStr.SplitJoins | common.py:23 | the pieces of `split(', ')` join back to the text, none holds the separator, and the first is a prefix |
| PyStr.SplitUnique | common.py:23 | any cutting into separator-free pieces that join back to the text is the split, so `split(', ')` is pinned down independently of how it is computed |
| PyStr.SplitSepFree | common.py:30-31 | text without ", " is one clause, and `""` splits to `[""]` |
| PyStr.FirstToken | common.py:32 | `clause.split()[0]` is absent exactly when the clause is all whitespace; otherwise it is a non-empty maximal word with only whitespace before it |
| PyStr.DecimalRoundTrip | rdeps.py:60 | the decimal text of a level reads back as the level |
| PyStr.TrailingDigitsOfAppend | rdeps.py:60 | digits appended after a non-digit are exactly the trailing run of digits, so the level can be found at the end of a label |
| SourceTable.Item | common.py:15 | indexing the kept tuple succeeds exactly for slots 0 to 7, and slot 1 is Binary |
| SourceTable.RecordOf | common.py:15 | the tuple is built exactly when Version, Binary and Maintainer are present; the first missing one in tuple order is reported; the optional fields default to "" |
| SourceTable.Lookup | common.py:14 | `sources.get(n)` finds a record exactly when `n` is a kept name |
| SourceTable.Store | common.py:14-19 | assignment makes the name map to the new record and leaves every other name's record; a known name keeps its position and a new one is appended |
| SourceTable.Merge | common.py:11-19 | on success every paragraph had Package and Version, the names are the distinct package names in order of first appearance, and each entry is the record of a paragraph of its name; complete paragraphs never fail |
| SourceTable.MergeSkipsNotNewer | common.py:17-18 | a paragraph of a kept name whose version is not newer leaves the table unchanged, whatever Binary or Maintainer it lacks |
| SourceTable.MergeKeepsLatest | common.py:14-19 | each kept record is that of the first paragraph of its name with the newest version: earlier ones are strictly older and later ones are not newer, so a tie keeps the first seen |
| SourceTable.LatestIsUnique | common.py:18 | at most one paragraph per name is latest in that sense |
| SourceTable.LatestBinaries | common.py:21-23 | `latestbinpkgs` holds a name exactly when some kept record lists it in `Binary.split(', ')` |
| SourceTable.FirstProducer | rdeps.py:49 | the `[0]` lookup succeeds exactly when the binary is in `LatestBinaries`, and returns the first kept entry, in table order, whose Binary list names it |
| ReverseIndex.FieldOf | common.py:30-39 | the four relations read tuple slots 2 to 5 |
| ReverseIndex.KeysOf | common.py:30-32 | the keys of the clauses are their first tokens, in order; the first all-whitespace clause raises |
| ReverseIndex.KeysCount | common.py:30-32 | each key occurs as often as clauses start with it |
| ReverseIndex.EmptyFieldContributesNothing | common.py:30-31 | an empty relation field appends nothing under any key |
| ReverseIndex.AddAll | common.py:32 | appending under each key adds the source once per occurrence of the key and creates exactly the keys used |
| ReverseIndex.FieldKeys | common.py:30-41 | one source's keys exist exactly when no clause of its field is blank; each key counts the clauses starting with it; a failure names a blank clause of that source |
| ReverseIndex.BuildIndex | common.py:29-41 | a map is built exactly when no kept record has a blank clause in its field; then every bucket is the expected one and a key is present exactly when its bucket is non-empty; a failure reports a blank clause of some kept source |
| ReverseIndex.BuildIndexes | common.py:25-41 | the four maps are built exactly when every field of every kept record parses, and then each is the expected one; otherwise some blank clause is reported |
| ReverseIndex.BucketMembersAreSources | common.py:29-41 | every source in a bucket is a kept source with a clause starting with the key |
| ReverseIndex.BucketCount | common.py:29-41 | a source appears in a bucket once per clause of its field that starts with the key |
| ReverseIndex.BucketInTableOrder | common.py:29-41 | buckets list sources in the iteration order of `sources` |
| ParseSources.ParseSourcePkgs | common.py:6-43 | the returned tuple: the table holds, for a comparator that is a version order, the latest record of each name, in order of first appearance; the binaries are exactly those the kept records list, and each map has the expected buckets; a failure is exactly the error of the paragraph merge when that fails, and otherwise a blank clause of a kept record, and complete paragraphs whose indexed fields parse never fail |
| Python2.IsPython2Dep | common.py:46-51 | the name is returned exactly when it starts with python, libpython or cython and has none of the excluded suffixes and prefixes; otherwise the result is False |
| Python2.AcceptedHasCandidatePrefix | common.py:47 | an accepted name starts with python, libpython or cython |
| Python2.Python3Rejected | common.py:49 | names starting with python3, libpython3 or cython3 are rejected |
| Python2.DocRejected | common.py:48 | documentation packages are rejected |
| Python2.NonCandidateRejected | common.py:47 | a name with none of the candidate prefixes is rejected |
| Python2.PythonSixAccepted | common.py:46-51 | "python-six" is accepted |
| Python2.RejectedExamples | common.py:46-51 | "python3-six", "python-six-doc", "pythonpy" and "" are rejected |
| Classify.RuntimeColour | rdeps.py:50-58 | the runtime colour as a priority list: yellow4 for contrib/non-free sections, else turquoise for metapackages, else orange for same-source binaries, else green when the testing set is non-empty and lacks the parent, else red |
| Classify.BuildColour | rdeps.py:63-67 | orange for names in the same-source list, else green when the testing set is non-empty and lacks the source, else red |
| Classify.BuildColourIsRedGreenOrOrange | rdeps.py:63-91 | build/test nodes are only red, green or orange |
| Classify.RuntimeColourAsWritten | rdeps.py:50-58 | the rule as written, with the `[8]` read: it gives a colour exactly when the parent's section is "metapackages", and otherwise raises IndexError |
| Classify.AsWrittenFailsOutsideMetapackages | rdeps.py:55 | as written, every parent outside "metapackages" raises IndexError |
| Classify.AsWrittenCounterexample | rdeps.py:55 | a Depends from "foo" in section "python" raises |
| Classify.AsWrittenAgreesWhenDefined | rdeps.py:50-58 | where the as-written rule gives a colour, it is the corrected one |
| Rdeps.LabelRoundTrip | rdeps.py:60 | the label `"<kind> (lvl=<level>)"` parses back to the kind and the level |
| Rdeps.BuildLabelNamesRelation | rdeps.py:60-93 | the label of a build/test edge names its own field and no other one, and never a followed runtime relationship |
| Rdeps.ParseLabelOf | rdeps.py:69 | a label built from any kind and digit string parses back to both |
| Rdeps.Qualifying | rdeps.py:45-48 | a reverse dependency gets an edge exactly when its parent is a current binary and its relationship is in `RELS` |
| Rdeps.QualifyingCounts | rdeps.py:45-48 | each qualifying reverse dependency is kept as often as it occurs in the cache, every other one not at all |
| Rdeps.QualifyingInOrder | rdeps.py:45-48 | the qualifying reverse dependencies keep the order of `rev_depends_list` (a subsequence of it) |
| Rdeps.SameSourceBins | rdeps.py:44 | `same_source_bins` exists exactly when the name is a current binary of the table; it is then the split Binary list of the first kept source, in table order, that lists the name |
| Rdeps.RuntimeStepOutcome | rdeps.py:45-61 | the runtime loop succeeds exactly when every qualifying parent has an owning source; otherwise it reports one without |
| Rdeps.RuntimeStepContents | rdeps.py:49-61 | qualifying entry i gives node i (the parent, coloured by the runtime rules), edge i (parent to name, with its relationship and the level) and push i (the parent, one level deeper) |
| Rdeps.BuildStep | rdeps.py:62-69 | one build/test loop adds, per source of the bucket, in order, the source coloured by the build rules and an edge to the name labelled with the field; nothing is pushed |
| Rdeps.BuildStepEdges | rdeps.py:62-69 | a loop's edges are exactly one per source of its bucket |
| Rdeps.BuildTimeEdges | rdeps.py:62-93 | the build/test edges of a name are exactly those from a source in one of its four buckets |
| Rdeps.BuildTimeShape | rdeps.py:62-93 | each build/test node is the coloured source of the edge at the same position |
| Rdeps.BuildTimeColours | rdeps.py:63-91 | every build/test node carries the build-time colour of its own name |
| Rdeps.ExpandOutcome | rdeps.py:42-93 | expanding a cached name succeeds exactly when there is a source table, some source lists the name, and every qualifying parent has an owning source (is in `LatestBinaries`) |
| Rdeps.ExpandShape | rdeps.py:59-60 | each added node is the coloured source of the edge at the same position, and every edge points at the name with its level |
| Rdeps.ExpandColours | rdeps.py:44-91 | node i of an expansion is, for i below the number of qualifying parents, parent i with its runtime colour, and otherwise a build/test source with its build-time colour; both use the binaries of the first source that lists the expanded name |
| Rdeps.ExpandPushes | rdeps.py:61 | an expansion pushes exactly the qualifying parents, one level deeper |
| Rdeps.ExpandPushesInOrder | rdeps.py:45-61 | pushes follow `rev_depends_list` order |
| Rdeps.UncachedPushesNothing | rdeps.py:40-41 | a name missing from the cache has no parents to push |
| Rdeps.ExpandEdges | rdeps.py:45-93 | an expansion's edges are exactly a runtime edge per qualifying parent and a build/test edge per source in one of the four buckets, all to the name at its level |
| Rdeps.ExpandEdgesInOrder | rdeps.py:45-93 | runtime edges come first, in order, then the build/test edges |
| Rdeps.AllEdgesMembers | rdeps.py:30-93 | an edge is in the reference list exactly when some visit's expansion adds it |
| Rdeps.EdgesComeFromCachedVisits | rdeps.py:37-41 | every edge points at a cached visited name with that visit's level, so uncached names get no edge and label levels stay within the bound |
| Rdeps.VisitShrinks | rdeps.py:39 | marking a current name visited shrinks the unvisited current names, the first part of the termination measure |
| Rdeps.Walk | rdeps.py:24-95 | the loop ends with the outcome `GenerateRdepsGraph` states, and its visits are those of the last-in-first-out order of rdeps.py:31-33 |
| Rdeps.GenerateRdepsGraph | rdeps.py:23-95 | visited names are distinct current binaries with levels in 1 to maxlevel; the target is visited first exactly when it is current and maxlevel >= 1; every later visit was pushed by an earlier one; the visits are exactly `VisitOrder`, the last-in-first-out order of `todo.pop()`, so the inputs fix which names are visited and hence the edges; a failure comes from the last visit's expansion and cannot happen when every current binary has an owning source; the target is the first node, and alone when not current or maxlevel < 1; the edges are the expansions' edges in visit order, and both ends of each are nodes; every qualifying parent of a visit below the bound was itself visited |

## Left out

- Reading the Sources files, `deb822` parsing and case-insensitive field names: the model starts from a sequence of paragraphs in file order (main, contrib, non-free).
- `apt_pkg.version_compare`: it is an abstract comparator, assumed to be a total preorder (section 5.6.12 of the Debian Policy Manual orders versions). The Debian version algorithm itself is not modelled.
- The apt cache, pydot, Gtk, xdot and argparse: the cache is a map argument, and the graph is returned as sequences rather than drawn or shown.
- Reading a `defaultdict`: `rbdeps[name]` and the other reads at rdeps.py:62-93 insert an empty list under a missing key, and a caller that reuses the maps sees those keys. `Bucket` reads without inserting. An inserted `[]` reads the same as a missing key, so no later read and no graph changes; only the key sets of the maps differ.
- ReverseIndex.BuildIndexes: when several maps would raise, the error reported is that of the first map in Build-Depends, -Indep, -Arch, Testsuite-Triggers order. Python reports the first blank clause in source-then-field order. The contract only says that some blank clause of some kept source is reported.
- The source name computed at rdeps.py:49: it feeds only the `[8]` read, which the corrected colour does not perform. Its `[0]` lookup is kept as the `NoOwningSource` failure.
- Rdeps.GenerateRdepsGraph: its success clause (`latestBins <= LatestBinaries(..) ==> r.Success?`) and its node colours describe the corrected program, which colours runtime parents with `Classify.RuntimeColour`. As written, rdeps.py:55 raises IndexError for every qualifying parent whose section is not "metapackages" (see Findings and `Classify.RuntimeColourAsWritten`).
- Rdeps.GenerateRdepsGraph: the node list is characterised by its first node and by containing both ends of every edge, not entry by entry.
- py2rm_progress.py is not part of this model.

## Findings

| source | as written | input that shows it | evidently intended | confidence | as-written member | corrected member |
|---|---|---|---|---|---|---|
| rdeps.py:55 | `unstable_sources[sourcepkg][8] == 'metapackages'` reads slot 8 of the record, but the tuple built at common.py:15/19 has slots 0 to 7 | a Depends from "foo" in section "python", with the owning record `("1.0", "foo", "", "", "", "", "me", "")`: IndexError | test the owning source's section against "metapackages"; the record keeps no section, so that test never holds and the colour follows the other rules | not executed | Classify.AsWrittenCounterexample | Classify.RuntimeColour |
