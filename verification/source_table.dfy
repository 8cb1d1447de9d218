/** The "latest upload per source package" table of `parse_source_pkgs`
    (common.py:6-23): Sources paragraphs of the main, contrib and non-free
    components are merged into one record per source name, a later
    paragraph replacing the kept one only when its version is strictly
    newer, and the set of binary package names of the kept records is
    derived from it. */
module SourceTable {
  import opened Results
  import opened PyStr
  import opened VersionOrder

  /** One paragraph of a Sources index, reduced to the fields the index
      reads; a field the paragraph does not have is `None`. */
  datatype Paragraph = Paragraph(
    package: Option<string>,
    version: Option<string>,
    binary: Option<string>,
    buildDepends: Option<string>,
    buildDependsIndep: Option<string>,
    buildDependsArch: Option<string>,
    testsuiteTriggers: Option<string>,
    maintainer: Option<string>,
    uploaders: Option<string>)

  /** The 8-tuple kept per source package: (Version, Binary, Build-Depends,
      Build-Depends-Indep, Build-Depends-Arch, Testsuite-Triggers,
      Maintainer, Uploaders). */
  datatype SourceRecord = SourceRecord(
    version: string,
    binary: string,
    buildDepends: string,
    buildDependsIndep: string,
    buildDependsArch: string,
    testsuiteTriggers: string,
    maintainer: string,
    uploaders: string)

  /** Number of fields in a kept record. */
  const RecordArity: nat := 8

  /** `record[i]` on the tuple; `None` where Python raises IndexError. */
  function Item(rec: SourceRecord, i: nat): (r: Option<string>)
    ensures r.Some? <==> i < RecordArity
    ensures i == 1 ==> r == Some(rec.binary)
  {
    match i
    case 0 => Some(rec.version)
    case 1 => Some(rec.binary)
    case 2 => Some(rec.buildDepends)
    case 3 => Some(rec.buildDependsIndep)
    case 4 => Some(rec.buildDependsArch)
    case 5 => Some(rec.testsuiteTriggers)
    case 6 => Some(rec.maintainer)
    case 7 => Some(rec.uploaders)
    case _ => None
  }

  datatype Entry = Entry(name: string, rec: SourceRecord)

  /** The `sources` dict: entries in insertion order, one per name. */
  type Table = seq<Entry>

  /** The exceptions index building can raise: a KeyError for a required
      field, and an IndexError for `clause.split()[0]` on a clause made only
      of whitespace. */
  datatype ParseError =
    | MissingField(field: string)
    | BlankClause(source: string, clause: string)

  /** `x.get(field, '')` */
  function OrEmpty(f: Option<string>): string {
    if f.Some? then f.value else ""
  }

  /** The paragraph carries every field the index reads with `x[...]`. */
  predicate Complete(p: Paragraph) {
    p.package.Some? && p.version.Some? && p.binary.Some? && p.maintainer.Some?
  }

  /** The tuple built from a paragraph (common.py:15/19). Fields are read in
      tuple order, so the first missing one of Version, Binary, Maintainer is
      the one reported; the optional fields default to "" and never fail. */
  function RecordOf(p: Paragraph): (r: Result<SourceRecord, ParseError>)
    ensures r.Success? <==> p.version.Some? && p.binary.Some? && p.maintainer.Some?
    ensures r.Failure? && p.version.None? ==> r.error == MissingField("Version")
    ensures r.Failure? && p.version.Some? && p.binary.None? ==> r.error == MissingField("Binary")
    ensures r.Failure? && p.version.Some? && p.binary.Some? ==> r.error == MissingField("Maintainer")
    ensures r.Success? ==> r.value.version == p.version.value && r.value.binary == p.binary.value
                           && r.value.maintainer == p.maintainer.value
    ensures r.Success? ==> && (p.buildDepends.None? ==> r.value.buildDepends == "")
                           && (p.buildDependsIndep.None? ==> r.value.buildDependsIndep == "")
                           && (p.buildDependsArch.None? ==> r.value.buildDependsArch == "")
                           && (p.testsuiteTriggers.None? ==> r.value.testsuiteTriggers == "")
                           && (p.uploaders.None? ==> r.value.uploaders == "")
  {
    if p.version.None? then Failure(MissingField("Version"))
    else if p.binary.None? then Failure(MissingField("Binary"))
    else if p.maintainer.None? then Failure(MissingField("Maintainer"))
    else Success(SourceRecord(
      p.version.value, p.binary.value,
      OrEmpty(p.buildDepends), OrEmpty(p.buildDependsIndep), OrEmpty(p.buildDependsArch),
      OrEmpty(p.testsuiteTriggers), p.maintainer.value, OrEmpty(p.uploaders)))
  }

  // ---------------------------------------------------------------------
  // The table as an insertion-ordered dict

  function NameSeq(t: Table): (r: seq<string>)
    ensures |r| == |t|
    ensures forall i | 0 <= i < |t| :: r[i] == t[i].name
  {
    if |t| == 0 then [] else NameSeq(t[..|t| - 1]) + [t[|t| - 1].name]
  }

  ghost function Names(t: Table): set<string> {
    set i | 0 <= i < |t| :: t[i].name
  }

  predicate Distinct(xs: seq<string>) {
    forall i, j | 0 <= i < j < |xs| :: xs[i] != xs[j]
  }

  /** Position of the entry named `n`, or -1. */
  function IndexOf(t: Table, n: string): (i: int)
    ensures -1 <= i < |t|
    ensures i >= 0 ==> t[i].name == n
    ensures i < 0 <==> n !in Names(t)
    ensures forall j | 0 <= j < |t| && (i < 0 || j < i) :: t[j].name != n
  {
    if |t| == 0 then -1
    else if t[0].name == n then 0
    else
      var k := IndexOf(t[1..], n);
      assert forall j | 1 <= j < |t| :: t[j] == t[1..][j - 1];
      assert Names(t) == {t[0].name} + Names(t[1..]) by {
        forall m | m in Names(t) ensures m in {t[0].name} + Names(t[1..]) {
          var j :| 0 <= j < |t| && t[j].name == m;
          if j > 0 { assert t[1..][j - 1].name == m; }
        }
      }
      if k < 0 then -1 else k + 1
  }

  /** `sources.get(n)` */
  function Lookup(t: Table, n: string): (r: Option<SourceRecord>)
    ensures r.Some? <==> n in Names(t)
  {
    var i := IndexOf(t, n);
    if i < 0 then None else Some(t[i].rec)
  }

  /** `sources[n] = rec`: a known name keeps its position, a new one is
      appended, as a Python dict does. */
  function Store(t: Table, n: string, rec: SourceRecord): (r: Table)
    ensures Lookup(r, n) == Some(rec)
    ensures forall m | m != n :: Lookup(r, m) == Lookup(t, m)
    ensures n in Names(t) ==> NameSeq(r) == NameSeq(t)
    ensures n !in Names(t) ==> NameSeq(r) == NameSeq(t) + [n]
    ensures forall e | e in r :: e in t || e == Entry(n, rec)
  {
    var i := IndexOf(t, n);
    var r := if i < 0 then t + [Entry(n, rec)] else t[i := Entry(n, rec)];
    StoreLookup(t, n, rec, r);
    StoreShape(t, n, rec, r);
    r
  }

  lemma {:induction false} StoreShape(t: Table, n: string, rec: SourceRecord, r: Table)
    requires var i := IndexOf(t, n); r == if i < 0 then t + [Entry(n, rec)] else t[i := Entry(n, rec)]
    ensures n in Names(t) ==> NameSeq(r) == NameSeq(t)
    ensures n !in Names(t) ==> NameSeq(r) == NameSeq(t) + [n]
    ensures forall e | e in r :: e in t || e == Entry(n, rec)
  {
    var i := IndexOf(t, n);
    if i < 0 {
      NamesAfterAppend(t, Entry(n, rec));
    } else {
      NamesAfterUpdate(t, i, Entry(n, rec));
    }
  }

  lemma {:induction false} NamesAfterAppend(t: Table, e: Entry)
    ensures NameSeq(t + [e]) == NameSeq(t) + [e.name]
  {
    assert (t + [e])[..|t|] == t;
  }

  lemma {:induction false} NamesAfterUpdate(t: Table, i: int, e: Entry)
    requires 0 <= i < |t| && t[i].name == e.name
    ensures NameSeq(t[i := e]) == NameSeq(t)
    ensures forall x | x in t[i := e] :: x in t || x == e
  {
    var r := t[i := e];
    assert forall k | 0 <= k < |r| :: NameSeq(r)[k] == NameSeq(t)[k];
    forall x | x in r ensures x in t || x == e {
      var j :| 0 <= j < |r| && r[j] == x;
      if j != i { assert r[j] == t[j]; }
    }
  }

  /** The first entry carrying a name is the one `IndexOf` finds. */
  lemma {:induction false} IndexOfIsFirst(t: Table, n: string, j: int)
    requires 0 <= j < |t| && t[j].name == n
    requires forall k | 0 <= k < j :: t[k].name != n
    ensures IndexOf(t, n) == j
  {
    assert n in Names(t);
  }

  lemma {:induction false} StoreLookup(t: Table, n: string, rec: SourceRecord, r: Table)
    requires var i := IndexOf(t, n); r == if i < 0 then t + [Entry(n, rec)] else t[i := Entry(n, rec)]
    ensures Lookup(r, n) == Some(rec)
    ensures forall m | m != n :: Lookup(r, m) == Lookup(t, m)
  {
    var i := IndexOf(t, n);
    var at := if i < 0 then |t| else i;
    assert |r| == |t| || |r| == |t| + 1;
    assert forall j | 0 <= j < |r| && j != at :: r[j] == t[j];
    IndexOfIsFirst(r, n, at);
    forall m | m != n ensures Lookup(r, m) == Lookup(t, m) {
      var k := IndexOf(t, m);
      if k >= 0 {
        IndexOfIsFirst(r, m, k);
      } else {
        assert m !in Names(r) by {
          forall j | 0 <= j < |r| ensures r[j].name != m {
            if j != at { assert r[j] == t[j]; }
          }
        }
      }
    }
  }

  // ---------------------------------------------------------------------
  // Merging paragraphs (common.py:12-19)

  /** The package names of the paragraphs, in file order. */
  function PackageSeq(paras: seq<Paragraph>): seq<string>
  {
    if |paras| == 0 then []
    else
      var last := paras[|paras| - 1];
      PackageSeq(paras[..|paras| - 1]) + (if last.package.Some? then [last.package.value] else [])
  }

  /** `xs` with every repetition of an earlier element dropped: the order in
      which a Python dict first sees its keys. */
  function FirstOccurrences(xs: seq<string>): (r: seq<string>)
    ensures Distinct(r)
    ensures forall x :: x in r <==> x in xs
  {
    if |xs| == 0 then []
    else
      var d := FirstOccurrences(xs[..|xs| - 1]);
      var x := xs[|xs| - 1];
      assert forall y :: y in xs <==> y in xs[..|xs| - 1] || y == x by {
        assert xs == xs[..|xs| - 1] + [x];
      }
      if x in d then d else d + [x]
  }

  /** One paragraph merged into the table (common.py:14-19). */
  function MergeOne(t: Table, p: Paragraph, cmp: Comparator): Result<Table, ParseError>
  {
    if p.package.None? then Failure(MissingField("Package"))
    else
      var name := p.package.value;
      var current := Lookup(t, name);
      if current.None? then
        var rec :- RecordOf(p);
        Success(Store(t, name, rec))
      else if p.version.None? then Failure(MissingField("Version"))
      else if cmp(p.version.value, current.value.version) > 0 then
        var rec :- RecordOf(p);
        Success(Store(t, name, rec))
      else
        Success(t)
  }

  /** Each kept entry is the record of some paragraph of that name. */
  ghost predicate FromParagraph(paras: seq<Paragraph>, e: Entry) {
    exists k | 0 <= k < |paras| :: paras[k].package == Some(e.name) && RecordOf(paras[k]) == Success(e.rec)
  }

  /** Every paragraph has a Package and a Version. */
  ghost predicate Versioned(paras: seq<Paragraph>) {
    forall k | 0 <= k < |paras| :: paras[k].package.Some? && paras[k].version.Some?
  }

  /** The table holds one entry per package name of `paras`, in order of
      first appearance. */
  ghost predicate FirstAppearanceOrder(paras: seq<Paragraph>, t: Table) {
    NameSeq(t) == FirstOccurrences(PackageSeq(paras))
  }

  /** Every entry of the table comes from a paragraph of `paras`. */
  ghost predicate AllFromParagraphs(paras: seq<Paragraph>, t: Table) {
    forall e | e in t :: FromParagraph(paras, e)
  }

  /** The `sources` dict after reading every paragraph, in file order. On
      success every paragraph had a Package and a Version, the table has one
      entry per package name in order of first appearance, and each entry is
      the record of a paragraph of that name. Complete paragraphs never
      fail. */
  function Merge(paras: seq<Paragraph>, cmp: Comparator): (r: Result<Table, ParseError>)
    ensures r.Success? ==> Versioned(paras)
    ensures r.Success? ==> FirstAppearanceOrder(paras, r.value)
    ensures r.Success? ==> AllFromParagraphs(paras, r.value)
    ensures (forall k | 0 <= k < |paras| :: Complete(paras[k])) ==> r.Success?
  {
    if |paras| == 0 then Success([])
    else
      var t :- Merge(paras[..|paras| - 1], cmp);
      var r := MergeOne(t, paras[|paras| - 1], cmp);
      MergeStep(paras, t, r, cmp);
      r
  }

  /** A paragraph of an already kept name whose version is not newer
      leaves the table unchanged, whatever its other fields hold: only its
      Version is read (common.py:17-18). */
  lemma {:induction false} MergeSkipsNotNewer(paras: seq<Paragraph>, p: Paragraph, cmp: Comparator)
    requires Merge(paras, cmp).Success?
    requires p.package.Some? && Lookup(Merge(paras, cmp).value, p.package.value).Some?
    requires p.version.Some?
    requires cmp(p.version.value, Lookup(Merge(paras, cmp).value, p.package.value).value.version) <= 0
    ensures Merge(paras + [p], cmp) == Merge(paras, cmp)
  {
    assert (paras + [p])[..|paras + [p]| - 1] == paras;
  }

  lemma {:induction false} MergeStep(paras: seq<Paragraph>, t: Table, r: Result<Table, ParseError>, cmp: Comparator)
    requires |paras| > 0
    requires Versioned(paras[..|paras| - 1])
    requires FirstAppearanceOrder(paras[..|paras| - 1], t)
    requires AllFromParagraphs(paras[..|paras| - 1], t)
    requires r == MergeOne(t, paras[|paras| - 1], cmp)
    ensures r.Success? ==> Versioned(paras)
    ensures r.Success? ==> FirstAppearanceOrder(paras, r.value)
    ensures r.Success? ==> AllFromParagraphs(paras, r.value)
    ensures (forall k | 0 <= k < |paras| :: Complete(paras[k])) ==> r.Success?
  {
    var init := paras[..|paras| - 1];
    var p := paras[|paras| - 1];
    assert paras == init + [p];
    assert forall k | 0 <= k < |init| :: paras[k] == init[k];
    if r.Success? {
      MergeStepNames(init, p, t, r.value, cmp);
      MergeStepFrom(init, p, t, r.value, cmp);
    } else {
      assert !Complete(paras[|init|]);
    }
  }

  lemma {:induction false} MergeStepNames(init: seq<Paragraph>, p: Paragraph, t: Table, r: Table, cmp: Comparator)
    requires FirstAppearanceOrder(init, t)
    requires MergeOne(t, p, cmp) == Success(r)
    ensures FirstAppearanceOrder(init + [p], r)
  {
    var paras := init + [p];
    var name := p.package.value;
    assert paras[..|paras| - 1] == init;
    assert PackageSeq(paras) == PackageSeq(init) + [name];
    assert name in Names(t) <==> name in NameSeq(t) by {
      assert forall i | 0 <= i < |t| :: NameSeq(t)[i] == t[i].name;
    }
  }

  lemma {:induction false} MergeStepFrom(init: seq<Paragraph>, p: Paragraph, t: Table, r: Table, cmp: Comparator)
    requires AllFromParagraphs(init, t)
    requires MergeOne(t, p, cmp) == Success(r)
    ensures AllFromParagraphs(init + [p], r)
  {
    var paras := init + [p];
    forall e | e in r ensures FromParagraph(paras, e) {
      if e in t {
        assert FromParagraph(init, e);
        var k :| 0 <= k < |init| && init[k].package == Some(e.name) && RecordOf(init[k]) == Success(e.rec);
        assert paras[k] == init[k];
      } else {
        assert paras[|init|] == p;
      }
    }
  }

  /** Paragraph `k` is the first of its name with the newest version: every
      earlier one of that name is strictly older, no later one is newer. */
  ghost predicate IsLatest(paras: seq<Paragraph>, cmp: Comparator, k: int) {
    && 0 <= k < |paras|
    && paras[k].package.Some? && paras[k].version.Some?
    && forall j | 0 <= j < |paras| && j != k && paras[j].package == paras[k].package ::
         && paras[j].version.Some?
         && (j < k ==> cmp(paras[k].version.value, paras[j].version.value) > 0)
         && (j > k ==> cmp(paras[k].version.value, paras[j].version.value) >= 0)
  }

  /** The kept record of `e.name` is that of its latest paragraph. */
  ghost predicate KeptLatest(paras: seq<Paragraph>, cmp: Comparator, e: Entry) {
    exists k :: IsLatest(paras, cmp, k) && paras[k].package == Some(e.name) && RecordOf(paras[k]) == Success(e.rec)
  }

  /** Every entry of `t` holds the record of its name's latest paragraph. */
  ghost predicate AllKeptLatest(paras: seq<Paragraph>, cmp: Comparator, t: Table) {
    forall e | e in t :: KeptLatest(paras, cmp, e)
  }

  /** The merge keeps, for every source name, the record of the first
      paragraph carrying its newest version: a tie keeps the earlier one
      because replacement needs `version_compare > 0`. */
  lemma {:induction false} MergeKeepsLatest(paras: seq<Paragraph>, cmp: Comparator)
    requires IsVersionOrder(cmp)
    requires Merge(paras, cmp).Success?
    ensures forall e | e in Merge(paras, cmp).value :: KeptLatest(paras, cmp, e)
  {
    MergeKeepsLatestAll(paras, cmp);
  }

  lemma {:induction false} MergeKeepsLatestAll(paras: seq<Paragraph>, cmp: Comparator)
    requires IsVersionOrder(cmp)
    requires Merge(paras, cmp).Success?
    ensures AllKeptLatest(paras, cmp, Merge(paras, cmp).value)
  {
    if |paras| > 0 {
      var init := paras[..|paras| - 1];
      var t := Merge(init, cmp).value;
      var r := Merge(paras, cmp).value;
      assert MergeOne(t, paras[|paras| - 1], cmp) == Success(r);
      MergeKeepsLatestAll(init, cmp);
      KeepsLatestStep(paras, t, r, cmp);
    }
  }

  lemma {:induction false} KeepsLatestStep(paras: seq<Paragraph>, t: Table, r: Table, cmp: Comparator)
    requires IsVersionOrder(cmp) && |paras| > 0
    requires FirstAppearanceOrder(paras[..|paras| - 1], t) && FirstAppearanceOrder(paras, r)
    requires AllKeptLatest(paras[..|paras| - 1], cmp, t)
    requires MergeOne(t, paras[|paras| - 1], cmp) == Success(r)
    ensures AllKeptLatest(paras, cmp, r)
  {
    var init := paras[..|paras| - 1];
    var p := paras[|paras| - 1];
    assert paras == init + [p];
    var name := p.package.value;
    forall e | e in r ensures KeptLatest(init + [p], cmp, e) {
      if e.name != name {
        OtherNameKept(init, p, t, r, cmp, e);
      } else {
        LatestOfLastName(init, p, t, r, cmp, e);
      }
    }
  }

  /** An entry of another name is left as it was, and stays latest. */
  lemma {:induction false} OtherNameKept(init: seq<Paragraph>, p: Paragraph, t: Table, r: Table, cmp: Comparator, e: Entry)
    requires FirstAppearanceOrder(init + [p], r)
    requires AllKeptLatest(init, cmp, t)
    requires MergeOne(t, p, cmp) == Success(r)
    requires e in r && Some(e.name) != p.package
    ensures KeptLatest(init + [p], cmp, e)
  {
    var paras := init + [p];
    assert e in t;
    assert KeptLatest(init, cmp, e);
    var k :| IsLatest(init, cmp, k) && init[k].package == Some(e.name) && RecordOf(init[k]) == Success(e.rec);
    assert paras[|init|] == p;
    assert forall j | 0 <= j < |init| :: paras[j] == init[j];
    assert IsLatest(paras, cmp, k);
  }

  lemma {:induction false} LatestOfLastName(init: seq<Paragraph>, p: Paragraph, t: Table, r: Table, cmp: Comparator, e: Entry)
    requires IsVersionOrder(cmp)
    requires FirstAppearanceOrder(init, t) && FirstAppearanceOrder(init + [p], r)
    requires AllKeptLatest(init, cmp, t)
    requires MergeOne(t, p, cmp) == Success(r)
    requires e in r && Some(e.name) == p.package
    ensures KeptLatest(init + [p], cmp, e)
  {
    EntryIsLookup(r, e);
    var current := Lookup(t, e.name);
    if current.None? {
      LatestWhenNew(init, p, t, r, cmp, e);
    } else {
      var i := IndexOf(t, e.name);
      var kept := t[i];
      assert KeptLatest(init, cmp, kept);
      var k :| IsLatest(init, cmp, k) && init[k].package == Some(e.name) && RecordOf(init[k]) == Success(kept.rec);
      if cmp(p.version.value, kept.rec.version) > 0 {
        LatestWhenReplaced(init, p, cmp, k);
      } else {
        assert e == kept by { EntryIsLookup(t, e); }
        LatestWhenKept(init, p, cmp, k);
      }
    }
  }

  /** The first paragraph of a name is its latest so far. */
  lemma {:induction false} LatestWhenNew(init: seq<Paragraph>, p: Paragraph, t: Table, r: Table, cmp: Comparator, e: Entry)
    requires FirstAppearanceOrder(init, t)
    requires MergeOne(t, p, cmp) == Success(r)
    requires e in r && Some(e.name) == p.package
    requires Lookup(t, e.name).None?
    ensures KeptLatest(init + [p], cmp, e)
  {
    var paras := init + [p];
    var n := |init|;
    var name := e.name;
    assert paras[n] == p;
    forall j | 0 <= j < n ensures paras[j].package != Some(name) {
      assert paras[j] == init[j];
      if init[j].package == Some(name) {
        PackageInNames(init, t, j);
      }
    }
    assert IsLatest(paras, cmp, n);
  }

  /** A strictly newer paragraph beats every earlier one of its name. */
  lemma {:induction false} LatestWhenReplaced(init: seq<Paragraph>, p: Paragraph, cmp: Comparator, k: int)
    requires IsVersionOrder(cmp)
    requires IsLatest(init, cmp, k) && p.package == init[k].package && p.version.Some?
    requires cmp(p.version.value, init[k].version.value) > 0
    ensures IsLatest(init + [p], cmp, |init|)
  {
    var paras := init + [p];
    var v := p.version.value;
    var ov := init[k].version.value;
    forall j | 0 <= j < |init| && paras[j].package == p.package
      ensures paras[j].version.Some? && cmp(v, paras[j].version.value) > 0
    {
      assert paras[j] == init[j];
      if j != k {
        NewerThenNotOlder(cmp, v, ov, init[j].version.value);
      }
    }
  }

  /** A paragraph that is not newer leaves the latest one in place. */
  lemma {:induction false} LatestWhenKept(init: seq<Paragraph>, p: Paragraph, cmp: Comparator, k: int)
    requires IsVersionOrder(cmp)
    requires IsLatest(init, cmp, k) && p.package == init[k].package && p.version.Some?
    requires !(cmp(p.version.value, init[k].version.value) > 0)
    ensures IsLatest(init + [p], cmp, k)
  {
    var paras := init + [p];
    NotNewerFlips(cmp, p.version.value, init[k].version.value);
    assert paras[|init|] == p;
    assert forall j | 0 <= j < |init| :: paras[j] == init[j];
  }

  /** In a table whose names are distinct, an entry is what lookup finds. */
  lemma {:induction false} EntryIsLookup(t: Table, e: Entry)
    requires e in t
    requires Distinct(NameSeq(t))
    ensures Lookup(t, e.name) == Some(e.rec)
  {
    var j :| 0 <= j < |t| && t[j] == e;
    var i := IndexOf(t, e.name);
    assert NameSeq(t)[i] == NameSeq(t)[j];
  }

  /** Every paragraph read so far has its name in the merged table. */
  lemma {:induction false} PackageInNames(paras: seq<Paragraph>, t: Table, j: int)
    requires FirstAppearanceOrder(paras, t)
    requires 0 <= j < |paras| && paras[j].package.Some?
    ensures paras[j].package.value in Names(t)
  {
    PackageSeqHas(paras, j);
    var name := paras[j].package.value;
    assert name in FirstOccurrences(PackageSeq(paras));
    assert name in NameSeq(t);
    var i :| 0 <= i < |t| && NameSeq(t)[i] == name;
    assert t[i].name == name;
  }

  lemma {:induction false} PackageSeqHas(paras: seq<Paragraph>, j: int)
    requires 0 <= j < |paras| && paras[j].package.Some?
    ensures paras[j].package.value in PackageSeq(paras)
  {
    var init := paras[..|paras| - 1];
    if j < |paras| - 1 {
      assert paras[j] == init[j];
      PackageSeqHas(init, j);
    }
  }

  /** Two paragraphs that are both latest for a name are the same one. */
  lemma {:induction false} LatestIsUnique(paras: seq<Paragraph>, cmp: Comparator, k1: int, k2: int)
    requires IsVersionOrder(cmp)
    requires IsLatest(paras, cmp, k1) && IsLatest(paras, cmp, k2)
    requires paras[k1].package == paras[k2].package
    ensures k1 == k2
  {
  }

  // ---------------------------------------------------------------------
  // latestbinpkgs (common.py:21-23)

  /** `set(xs)` */
  function Elements(xs: seq<string>): (r: set<string>)
    ensures forall x :: x in r <==> x in xs
  {
    set x | x in xs
  }

  /** The union of `Binary.split(', ')` over the kept records. */
  function LatestBinaries(t: Table): (r: set<string>)
    ensures forall b :: b in r <==> exists i | 0 <= i < |t| :: b in Split(t[i].rec.binary)
  {
    if |t| == 0 then {}
    else
      var init := t[..|t| - 1];
      var r := LatestBinaries(init) + Elements(Split(t[|t| - 1].rec.binary));
      assert forall i | 0 <= i < |init| :: init[i] == t[i];
      r
  }

  /** Position of the first kept entry whose Binary list names `b`, or -1. */
  function ProducerIndex(t: Table, b: string): (i: int)
    ensures -1 <= i < |t|
    ensures i < 0 <==> b !in LatestBinaries(t)
    ensures i >= 0 ==> b in Split(t[i].rec.binary)
    ensures forall j | 0 <= j < |t| && (i < 0 || j < i) :: b !in Split(t[j].rec.binary)
  {
    if |t| == 0 then -1
    else if b in Split(t[0].rec.binary) then 0
    else
      var k := ProducerIndex(t[1..], b);
      assert forall j | 1 <= j < |t| :: t[j] == t[1..][j - 1];
      if k < 0 then -1 else k + 1
  }

  /** The source whose Binary list first names `b`: the `[...][0]` lookups
      of rdeps.py:44 and rdeps.py:49, with `None` where Python raises
      IndexError because no kept source produces `b`. */
  function FirstProducer(t: Table, b: string): (r: Option<Entry>)
    ensures r.None? <==> b !in LatestBinaries(t)
    ensures r.Some? ==> r.value in t && b in Split(r.value.rec.binary)
    ensures r.Some? ==> exists i | 0 <= i < |t| :: t[i] == r.value && forall j | 0 <= j < i :: b !in Split(t[j].rec.binary)
  {
    var i := ProducerIndex(t, b);
    if i < 0 then None else Some(t[i])
  }
}
