/** `parse_source_pkgs` as a whole (common.py:6-43): the latest-record
    table, the binaries it lists and the four reverse-dependency maps,
    returned together. */
module ParseSources {
  import opened Results
  import opened PyStr
  import opened VersionOrder
  import opened SourceTable
  import opened ReverseIndex

  /** The tuple `(latestbinpkgs, rbdeps, rbdepsi, rbdepsa, rtstrig, sources)`
      of common.py:43. */
  datatype Parsed = Parsed(latestBins: set<string>, indexes: Indexes, sources: Table)

  /** Reading the paragraphs (common.py:11-19) comes first, so a missing
      field is reported before any blank clause; the binaries
      (common.py:21-23) and the maps (common.py:25-41) are then derived from
      the kept records. */
  function ParseSourcePkgs(paras: seq<Paragraph>, cmp: Comparator): (r: Result<Parsed, ParseError>)
    // the table
    ensures r.Success? ==> Versioned(paras)
    ensures r.Success? ==> FirstAppearanceOrder(paras, r.value.sources) && AllFromParagraphs(paras, r.value.sources)
    ensures r.Success? && IsVersionOrder(cmp) ==> AllKeptLatest(paras, cmp, r.value.sources)
    // the binaries
    ensures r.Success? ==> forall b :: b in r.value.latestBins <==>
                             exists i | 0 <= i < |r.value.sources| :: b in Split(r.value.sources[i].rec.binary)
    // the maps
    ensures r.Success? ==> forall rel :: AllParse(r.value.sources, rel)
    ensures r.Success? ==> forall rel :: Indexed(r.value.sources, rel, IndexFor(r.value.indexes, rel))
    // when it fails
    ensures Merge(paras, cmp).Failure? ==> r == Failure(Merge(paras, cmp).error)
    ensures r.Failure? ==> Merge(paras, cmp).Failure?
                           || exists i, rel | 0 <= i < |Merge(paras, cmp).value| :: ReportsBlank(r.error, Merge(paras, cmp).value[i], rel)
    ensures ((forall k | 0 <= k < |paras| :: Complete(paras[k]))
             && (forall rel :: AllParse(Merge(paras, cmp).value, rel))) ==> r.Success?
  {
    var t :- Merge(paras, cmp);
    var ix :- BuildIndexes(t);
    KeptLatestUnderOrder(paras, cmp);
    Success(Parsed(LatestBinaries(t), ix, t))
  }

  /** `MergeKeepsLatest` for a comparator that may not be a version order. */
  lemma {:induction false} KeptLatestUnderOrder(paras: seq<Paragraph>, cmp: Comparator)
    requires Merge(paras, cmp).Success?
    ensures IsVersionOrder(cmp) ==> AllKeptLatest(paras, cmp, Merge(paras, cmp).value)
  {
    if IsVersionOrder(cmp) {
      MergeKeepsLatest(paras, cmp);
    }
  }
}
