/** The node colours of `generate_rdeps_graph` (rdeps.py:50-58 for runtime
    reverse dependencies, rdeps.py:63-91 for build and test ones). Each rule
    overwrites the colour chosen by the rules before it, so the last rule
    that matches decides. */
module Classify {
  import opened Results
  import opened PyStr
  import opened SourceTable

  datatype Colour = Red | Green | Orange | Turquoise | Yellow4

  /** The colour name pydot is given. */
  function ColourName(c: Colour): string {
    match c
    case Red => "red"
    case Green => "green"
    case Orange => "orange"
    case Turquoise => "turquoise"
    case Yellow4 => "yellow4"
  }

  /** Sections of the contrib and non-free archive areas (rdeps.py:57). */
  const NonMainAreas: seq<string> := ["contrib/", "non-free/"]

  /** `if collection and x not in collection`: an empty testing set (or
      `None`) never makes anything green. */
  predicate MissingFromTesting(x: string, testing: set<string>) {
    testing != {} && x !in testing
  }

  /** The colour of a runtime reverse dependency `parent` whose package lives
      in `section`, where `sameSource` lists the binaries built by the source
      of the package being expanded (rdeps.py:50-58, with the source-side
      test of line 55 never holding: a kept record has no section). The
      contract states the rules as a priority list, highest first. */
  function RuntimeColour(parent: string, section: string, testingBins: set<string>, sameSource: seq<string>): (c: Colour)
    ensures c == Yellow4 <==> StartsWithAny(section, NonMainAreas)
    ensures c == Turquoise <==> !StartsWithAny(section, NonMainAreas) && section == "metapackages"
    ensures c == Orange <==> section != "metapackages" && !StartsWithAny(section, NonMainAreas) && parent in sameSource
    ensures c == Green <==> section != "metapackages" && !StartsWithAny(section, NonMainAreas) && parent !in sameSource
                            && MissingFromTesting(parent, testingBins)
    ensures c == Red <==> section != "metapackages" && !StartsWithAny(section, NonMainAreas) && parent !in sameSource
                          && !MissingFromTesting(parent, testingBins)
  {
    var c0 := Red;
    var c1 := if MissingFromTesting(parent, testingBins) then Green else c0;
    var c2 := if parent in sameSource then Orange else c1;
    var c3 := if section == "metapackages" then Turquoise else c2;
    var c4 := if StartsWithAny(section, NonMainAreas) then Yellow4 else c3;
    MetapackagesIsMain();
    c4
  }

  /** "metapackages" is not in contrib or non-free, so turquoise and yellow4
      never compete for the same section. */
  lemma {:induction false} MetapackagesIsMain()
    ensures !StartsWithAny("metapackages", NonMainAreas)
  {
    forall p | p in NonMainAreas ensures !StartsWith("metapackages", p) {
      assert p[0] != 'm';
    }
  }

  /** The colour of a build-time or test reverse dependency: the source
      `src` of a Build-Depends, Build-Depends-Indep, Build-Depends-Arch or
      Testsuite-Triggers relation (rdeps.py:63-67 and repeated at 71-75,
      79-83, 87-91). */
  function BuildColour(src: string, testingSources: set<string>, sameSource: seq<string>): (c: Colour)
    ensures c == Orange <==> src in sameSource
    ensures c == Green <==> src !in sameSource && MissingFromTesting(src, testingSources)
    ensures c == Red <==> src !in sameSource && !MissingFromTesting(src, testingSources)
  {
    var c0 := Red;
    var c1 := if MissingFromTesting(src, testingSources) then Green else c0;
    if src in sameSource then Orange else c1
  }

  /** Build-time nodes are never turquoise or yellow4. */
  lemma {:induction false} BuildColourIsRedGreenOrOrange(src: string, testingSources: set<string>, sameSource: seq<string>)
    ensures BuildColour(src, testingSources, sameSource) in {Red, Green, Orange}
  {
  }

  // ---------------------------------------------------------------------
  // rdeps.py:55 as written

  /** The runtime colour as rdeps.py:50-58 computes it, including the
      `unstable_sources[sourcepkg][8]` read on the right of the `or`. The
      kept record is an 8-tuple, so that read raises IndexError; Python only
      evaluates it when the parent's own section is not "metapackages". */
  function RuntimeColourAsWritten(parent: string, section: string, testingBins: set<string>, sameSource: seq<string>,
                                  sourceRecord: SourceRecord): (r: Result<Colour, string>)
    ensures r.Success? <==> section == "metapackages"
    ensures r.Failure? ==> r.error == "IndexError"
  {
    var c0 := Red;
    var c1 := if MissingFromTesting(parent, testingBins) then Green else c0;
    var c2 := if parent in sameSource then Orange else c1;
    if section == "metapackages" then
      var c4 := if StartsWithAny(section, NonMainAreas) then Yellow4 else Turquoise;
      Success(c4)
    else
      match Item(sourceRecord, 8)
      case None => Failure("IndexError")
      case Some(item) =>
        var c3 := if item == "metapackages" then Turquoise else c2;
        var c4 := if StartsWithAny(section, NonMainAreas) then Yellow4 else c3;
        Success(c4)
  }

  /** The as-written colour fails for every runtime reverse dependency whose
      own section is not "metapackages", whatever the source record holds. */
  lemma {:induction false} AsWrittenFailsOutsideMetapackages(parent: string, section: string, testingBins: set<string>,
                                          sameSource: seq<string>, sourceRecord: SourceRecord)
    requires section != "metapackages"
    ensures RuntimeColourAsWritten(parent, section, testingBins, sameSource, sourceRecord).Failure?
  {
    assert Item(sourceRecord, 8).None?;
  }

  /** A concrete input: a Depends from "foo" in section "python" fails. */
  lemma {:induction false} AsWrittenCounterexample()
    ensures RuntimeColourAsWritten("foo", "python", {}, [], SourceRecord("1.0", "foo", "", "", "", "", "me", "")).Failure?
  {
    AsWrittenFailsOutsideMetapackages("foo", "python", {}, [], SourceRecord("1.0", "foo", "", "", "", "", "me", ""));
  }

  /** Where the as-written colour is defined it agrees with the corrected
      one. */
  lemma {:induction false} AsWrittenAgreesWhenDefined(parent: string, section: string, testingBins: set<string>,
                                   sameSource: seq<string>, sourceRecord: SourceRecord)
    requires RuntimeColourAsWritten(parent, section, testingBins, sameSource, sourceRecord).Success?
    ensures RuntimeColourAsWritten(parent, section, testingBins, sameSource, sourceRecord).value
         == RuntimeColour(parent, section, testingBins, sameSource)
  {
    MetapackagesIsMain();
    assert Item(sourceRecord, 8).None?;
  }
}
