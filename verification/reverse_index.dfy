/** The four reverse-dependency maps of `parse_source_pkgs`
    (common.py:25-41): for every kept source, in table order, each
    relation field is split on ", ", empty clauses are skipped, and the
    source name is appended under the first whitespace-delimited token of
    every other clause. */
module ReverseIndex {
  import opened Results
  import opened PyStr
  import opened SourceTable

  /** The four relation fields that are indexed. */
  datatype Relation = BuildDepends | BuildDependsIndep | BuildDependsArch | TestsuiteTriggers

  /** Which tuple slot holds the field (common.py:30, 33, 36, 39). */
  function Slot(rel: Relation): (i: nat)
    ensures 2 <= i <= 5
  {
    match rel
    case BuildDepends => 2
    case BuildDependsIndep => 3
    case BuildDependsArch => 4
    case TestsuiteTriggers => 5
  }

  /** The field a relation reads from a kept record: slot `Slot(rel)` of the
      tuple. */
  function FieldOf(rec: SourceRecord, rel: Relation): (f: string)
    ensures Item(rec, Slot(rel)) == Some(f)
  {
    match rel
    case BuildDepends => rec.buildDepends
    case BuildDependsIndep => rec.buildDependsIndep
    case BuildDependsArch => rec.buildDependsArch
    case TestsuiteTriggers => rec.testsuiteTriggers
  }

  /** The relation's field name, which is also the edge label text used for
      it in rdeps.py:69, 77, 85 and 93. */
  function KindName(rel: Relation): string {
    match rel
    case BuildDepends => "Build-Depends"
    case BuildDependsIndep => "Build-Depends-Indep"
    case BuildDependsArch => "Build-Depends-Arch"
    case TestsuiteTriggers => "Testsuite-Triggers"
  }

  lemma {:induction false} KindNamesDistinct(a: Relation, b: Relation)
    ensures KindName(a) == KindName(b) <==> a == b
  {
  }

  /** A `defaultdict(list)`: a key is present only once something was
      appended under it. */
  type Index = map<string, seq<string>>

  /** `index[k]` on a defaultdict, without the insertion a read performs. */
  function Bucket(m: Index, k: string): seq<string> {
    if k in m then m[k] else []
  }

  /** `n` copies of `x`. */
  function Repeat(x: string, n: nat): (r: seq<string>)
    ensures |r| == n
    ensures forall i | 0 <= i < n :: r[i] == x
  {
    seq(n, _ => x)
  }

  datatype Indexes = Indexes(bd: Index, bdi: Index, bda: Index, tt: Index)

  /** The map of `ix` that a relation fills: rbdeps, rbdepsi, rbdepsa or
      rtstrig. */
  function IndexFor(ix: Indexes, rel: Relation): Index {
    match rel
    case BuildDepends => ix.bd
    case BuildDependsIndep => ix.bdi
    case BuildDependsArch => ix.bda
    case TestsuiteTriggers => ix.tt
  }

  // ---------------------------------------------------------------------
  // Clauses and their keys

  /** `pieces` without the empty strings, in order (the `if bd:` filter). */
  function NonEmpty(pieces: seq<string>): (r: seq<string>)
    ensures forall c :: c in r <==> c in pieces && c != ""
    ensures |r| <= |pieces|
  {
    if |pieces| == 0 then []
    else
      var rest := NonEmpty(pieces[1..]);
      assert forall c :: c in pieces <==> c == pieces[0] || c in pieces[1..] by {
        assert pieces == [pieces[0]] + pieces[1..];
      }
      if pieces[0] == "" then rest else [pieces[0]] + rest
  }

  /** The clauses of a relation field that reach `split()[0]`. */
  function Clauses(field: string): seq<string> {
    NonEmpty(Split(field))
  }

  /** An empty field, which `split(', ')` turns into `[""]`, has no clauses. */
  lemma {:induction false} EmptyFieldHasNoClauses()
    ensures Clauses("") == []
  {
    assert Split("") == [""];
  }

  /** Every clause of the field has a first token. */
  predicate NoBlankClause(field: string) {
    forall c | c in Clauses(field) :: !AllSpace(c)
  }

  /** The keys `clause.split()[0]` of a sequence of clauses, in order; the
      first clause made only of whitespace raises IndexError. */
  function KeysOf(src: string, clauses: seq<string>): (r: Result<seq<string>, ParseError>)
    ensures r.Success? <==> forall c | c in clauses :: !AllSpace(c)
    ensures r.Success? ==> |r.value| == |clauses|
    ensures r.Success? ==> forall i | 0 <= i < |clauses| :: FirstToken(clauses[i]) == Some(r.value[i])
    ensures r.Failure? ==> exists i | 0 <= i < |clauses| ::
      && AllSpace(clauses[i])
      && r.error == BlankClause(src, clauses[i])
      && forall j | 0 <= j < i :: !AllSpace(clauses[j])
  {
    if |clauses| == 0 then Success([])
    else
      assert forall c :: c in clauses <==> c == clauses[0] || c in clauses[1..] by {
        assert clauses == [clauses[0]] + clauses[1..];
      }
      match FirstToken(clauses[0])
      case None => Failure(BlankClause(src, clauses[0]))
      case Some(k) =>
        var rest := KeysOf(src, clauses[1..]);
        if rest.Failure? then
          KeysOfShift(src, clauses, rest);
          Failure(rest.error)
        else
          Success([k] + rest.value)
  }

  lemma {:induction false} KeysOfShift(src: string, clauses: seq<string>, rest: Result<seq<string>, ParseError>)
    requires |clauses| > 0 && !AllSpace(clauses[0])
    requires rest.Failure?
    requires exists i | 0 <= i < |clauses[1..]| ::
      && AllSpace(clauses[1..][i])
      && rest.error == BlankClause(src, clauses[1..][i])
      && forall j | 0 <= j < i :: !AllSpace(clauses[1..][j])
    ensures exists i | 0 <= i < |clauses| ::
      && AllSpace(clauses[i])
      && rest.error == BlankClause(src, clauses[i])
      && forall j | 0 <= j < i :: !AllSpace(clauses[j])
  {
    var i :| 0 <= i < |clauses[1..]| && AllSpace(clauses[1..][i]) && rest.error == BlankClause(src, clauses[1..][i])
             && forall j | 0 <= j < i :: !AllSpace(clauses[1..][j]);
    assert forall j | 1 <= j <= i :: clauses[j] == clauses[1..][j - 1];
  }

  /** How many clauses have first token `k`. */
  function CountKey(clauses: seq<string>, k: string): nat {
    if |clauses| == 0 then 0
    else (if FirstToken(clauses[0]) == Some(k) then 1 else 0) + CountKey(clauses[1..], k)
  }

  /** How many times a record's field names `k` as a clause's first token:
      the number of appends of the source under `k`. */
  function Occurrences(rec: SourceRecord, rel: Relation, k: string): nat {
    CountKey(Clauses(FieldOf(rec, rel)), k)
  }

  /** The keys computed for the clauses hold each key as many times as
      clauses start with it. */
  lemma {:induction false} KeysCount(src: string, clauses: seq<string>, k: string)
    requires KeysOf(src, clauses).Success?
    ensures multiset(KeysOf(src, clauses).value)[k] == CountKey(clauses, k)
  {
    if |clauses| > 0 {
      assert forall c | c in clauses[1..] :: c in clauses;
      KeysCount(src, clauses[1..], k);
    }
  }

  /** An empty relation field contributes no entry under any key. */
  lemma {:induction false} EmptyFieldContributesNothing(rec: SourceRecord, rel: Relation, k: string)
    requires FieldOf(rec, rel) == ""
    ensures Occurrences(rec, rel, k) == 0
  {
    EmptyFieldHasNoClauses();
  }

  // ---------------------------------------------------------------------
  // Building the maps

  /** `index[key].append(src)` for every key in order. */
  function AddAll(m: Index, keys: seq<string>, src: string): (r: Index)
    ensures forall k :: Bucket(r, k) == Bucket(m, k) + Repeat(src, multiset(keys)[k])
    ensures forall k :: k in r <==> k in m || k in keys
    decreases |keys|
  {
    if |keys| == 0 then
      assert forall k :: Bucket(m, k) + Repeat(src, multiset(keys)[k]) == Bucket(m, k);
      m
    else
      var m' := m[keys[0] := Bucket(m, keys[0]) + [src]];
      var r := AddAll(m', keys[1..], src);
      AddAllStep(m, keys, src, m', r);
      r
  }

  lemma {:induction false} AddAllStep(m: Index, keys: seq<string>, src: string, m': Index, r: Index)
    requires |keys| > 0
    requires m' == m[keys[0] := Bucket(m, keys[0]) + [src]]
    requires forall k :: Bucket(r, k) == Bucket(m', k) + Repeat(src, multiset(keys[1..])[k])
    requires forall k :: k in r <==> k in m' || k in keys[1..]
    ensures forall k :: Bucket(r, k) == Bucket(m, k) + Repeat(src, multiset(keys)[k])
    ensures forall k :: k in r <==> k in m || k in keys
  {
    assert keys == [keys[0]] + keys[1..];
    forall k ensures Bucket(r, k) == Bucket(m, k) + Repeat(src, multiset(keys)[k]) {
      var n := multiset(keys[1..])[k];
      if k == keys[0] {
        assert multiset(keys)[k] == n + 1;
        AppendRepeat(Bucket(m, k), src, n);
      } else {
        assert multiset(keys)[k] == n;
      }
    }
  }

  lemma {:induction false} AppendRepeat(b: seq<string>, x: string, n: nat)
    ensures (b + [x]) + Repeat(x, n) == b + Repeat(x, n + 1)
  {
  }

  /** `err` is the IndexError of a blank clause of `e`'s field `rel`. */
  predicate ReportsBlank(err: ParseError, e: Entry, rel: Relation) {
    && err.BlankClause? && err.source == e.name
    && err.clause in Clauses(FieldOf(e.rec, rel)) && AllSpace(err.clause)
  }

  /** No kept record has a blank clause in its field `rel`. */
  predicate AllParse(t: Table, rel: Relation) {
    forall i | 0 <= i < |t| :: NoBlankClause(FieldOf(t[i].rec, rel))
  }

  /** The keys under which one source is appended for one field. */
  function FieldKeys(e: Entry, rel: Relation): (r: Result<seq<string>, ParseError>)
    ensures r.Success? <==> NoBlankClause(FieldOf(e.rec, rel))
    ensures r.Success? ==> forall k :: multiset(r.value)[k] == Occurrences(e.rec, rel, k)
    ensures r.Success? ==> forall k :: k in r.value <==> Occurrences(e.rec, rel, k) > 0
    ensures r.Failure? ==> ReportsBlank(r.error, e, rel)
  {
    var clauses := Clauses(FieldOf(e.rec, rel));
    var r := KeysOf(e.name, clauses);
    if r.Success? then
      forall k ensures multiset(r.value)[k] == Occurrences(e.rec, rel, k) {
        KeysCount(e.name, clauses, k);
      }
      r
    else
      r
  }

  /** What `index[k]` holds after the loop of common.py:29-41: every kept
      source in table order, each repeated once per clause of its field
      whose first token is `k`. */
  function ExpectedBucket(t: Table, rel: Relation, k: string): seq<string> {
    if |t| == 0 then []
    else
      var e := t[|t| - 1];
      ExpectedBucket(t[..|t| - 1], rel, k) + Repeat(e.name, Occurrences(e.rec, rel, k))
  }

  /** `m` is the map the loop builds from `t` for field `rel`: every bucket
      is the expected one and a key is present exactly when its bucket is
      non-empty. */
  ghost predicate Indexed(t: Table, rel: Relation, m: Index) {
    && (forall k :: Bucket(m, k) == ExpectedBucket(t, rel, k))
    && (forall k :: k in m <==> ExpectedBucket(t, rel, k) != [])
  }

  /** One of the four maps (rbdeps, rbdepsi, rbdepsa or rtstrig) for a
      table. It is built exactly when no clause of that field is blank in any
      kept record; then every bucket is the expected one and a key is
      present exactly when its bucket is non-empty. */
  function BuildIndex(t: Table, rel: Relation): (r: Result<Index, ParseError>)
    ensures r.Success? <==> AllParse(t, rel)
    ensures r.Success? ==> Indexed(t, rel, r.value)
    ensures r.Failure? ==> exists i | 0 <= i < |t| :: ReportsBlank(r.error, t[i], rel)
  {
    if |t| == 0 then Success(map[])
    else
      var init := t[..|t| - 1];
      var e := t[|t| - 1];
      var prev := BuildIndex(init, rel);
      var keys := FieldKeys(e, rel);
      var r := if prev.Failure? then Failure(prev.error)
               else if keys.Failure? then Failure(keys.error)
               else Success(AddAll(prev.value, keys.value, e.name));
      BuildStep(t, rel, prev, keys, r);
      r
  }

  lemma {:induction false} BuildStep(t: Table, rel: Relation, prev: Result<Index, ParseError>,
                                     keys: Result<seq<string>, ParseError>, r: Result<Index, ParseError>)
    requires |t| > 0
    requires var init := t[..|t| - 1];
      && (prev.Success? <==> AllParse(init, rel))
      && (prev.Success? ==> Indexed(init, rel, prev.value))
      && (prev.Failure? ==> exists i | 0 <= i < |init| :: ReportsBlank(prev.error, init[i], rel))
    requires keys == FieldKeys(t[|t| - 1], rel)
    requires r == if prev.Failure? then Failure(prev.error)
                  else if keys.Failure? then Failure(keys.error)
                  else Success(AddAll(prev.value, keys.value, t[|t| - 1].name))
    ensures r.Success? <==> AllParse(t, rel)
    ensures r.Success? ==> Indexed(t, rel, r.value)
    ensures r.Failure? ==> exists i | 0 <= i < |t| :: ReportsBlank(r.error, t[i], rel)
  {
    var init := t[..|t| - 1];
    var e := t[|t| - 1];
    if prev.Failure? {
      var i :| 0 <= i < |init| && ReportsBlank(prev.error, init[i], rel);
      assert init[i] == t[i];
      assert !NoBlankClause(FieldOf(t[i].rec, rel));
    } else if keys.Failure? {
      assert !NoBlankClause(FieldOf(t[|t| - 1].rec, rel));
    } else {
      forall i | 0 <= i < |t| ensures NoBlankClause(FieldOf(t[i].rec, rel)) {
        if i < |init| {
          assert init[i] == t[i];
          assert NoBlankClause(FieldOf(init[i].rec, rel));
        } else {
          assert t[i] == e;
        }
      }
      forall k ensures Bucket(r.value, k) == ExpectedBucket(t, rel, k) {
        assert ExpectedBucket(t, rel, k) == ExpectedBucket(init, rel, k) + Repeat(e.name, Occurrences(e.rec, rel, k));
      }
      forall k ensures k in r.value <==> ExpectedBucket(t, rel, k) != [] {
        assert ExpectedBucket(t, rel, k) == ExpectedBucket(init, rel, k) + Repeat(e.name, Occurrences(e.rec, rel, k));
      }
    }
  }

  /** The four maps of common.py:25-41 for a table: built exactly when no
      indexed clause of any kept record is blank. */
  function BuildIndexes(t: Table): (r: Result<Indexes, ParseError>)
    ensures r.Success? <==> forall rel :: AllParse(t, rel)
    ensures r.Success? ==> forall rel :: Indexed(t, rel, IndexFor(r.value, rel))
    ensures r.Failure? ==> exists i, rel | 0 <= i < |t| :: ReportsBlank(r.error, t[i], rel)
  {
    var bd := BuildIndex(t, BuildDepends);
    var bdi := BuildIndex(t, BuildDependsIndep);
    var bda := BuildIndex(t, BuildDependsArch);
    var tt := BuildIndex(t, TestsuiteTriggers);
    var r := if bd.Failure? then Failure(bd.error)
             else if bdi.Failure? then Failure(bdi.error)
             else if bda.Failure? then Failure(bda.error)
             else if tt.Failure? then Failure(tt.error)
             else Success(Indexes(bd.value, bdi.value, bda.value, tt.value));
    BuildIndexesOutcome(t, r);
    r
  }

  lemma {:induction false} BuildIndexesOutcome(t: Table, r: Result<Indexes, ParseError>)
    requires var bd := BuildIndex(t, BuildDepends);
      var bdi := BuildIndex(t, BuildDependsIndep);
      var bda := BuildIndex(t, BuildDependsArch);
      var tt := BuildIndex(t, TestsuiteTriggers);
      r == if bd.Failure? then Failure(bd.error)
           else if bdi.Failure? then Failure(bdi.error)
           else if bda.Failure? then Failure(bda.error)
           else if tt.Failure? then Failure(tt.error)
           else Success(Indexes(bd.value, bdi.value, bda.value, tt.value))
    ensures r.Success? <==> forall rel :: AllParse(t, rel)
    ensures r.Success? ==> forall rel :: Indexed(t, rel, IndexFor(r.value, rel))
    ensures r.Failure? ==> exists i, rel | 0 <= i < |t| :: ReportsBlank(r.error, t[i], rel)
  {
    if r.Failure? {
      var rel := if BuildIndex(t, BuildDepends).Failure? then BuildDepends
                 else if BuildIndex(t, BuildDependsIndep).Failure? then BuildDependsIndep
                 else if BuildIndex(t, BuildDependsArch).Failure? then BuildDependsArch
                 else TestsuiteTriggers;
      FailedIndex(t, rel, r.error);
    } else {
      EachIndexBuilt(t, r.value);
    }
  }

  lemma {:induction false} FailedIndex(t: Table, rel: Relation, err: ParseError)
    requires BuildIndex(t, rel) == Failure(err)
    ensures !AllParse(t, rel)
    ensures exists i | 0 <= i < |t| :: ReportsBlank(err, t[i], rel)
  {
  }

  lemma {:induction false} EachIndexBuilt(t: Table, r: Indexes)
    requires BuildIndex(t, BuildDepends) == Success(r.bd)
    requires BuildIndex(t, BuildDependsIndep) == Success(r.bdi)
    requires BuildIndex(t, BuildDependsArch) == Success(r.bda)
    requires BuildIndex(t, TestsuiteTriggers) == Success(r.tt)
    ensures forall rel :: AllParse(t, rel)
    ensures forall rel :: Indexed(t, rel, IndexFor(r, rel))
  {
    forall rel ensures AllParse(t, rel) && Indexed(t, rel, IndexFor(r, rel))
    {
      match rel
      case BuildDepends => IndexBuilt(t, rel, r.bd);
      case BuildDependsIndep => IndexBuilt(t, rel, r.bdi);
      case BuildDependsArch => IndexBuilt(t, rel, r.bda);
      case TestsuiteTriggers => IndexBuilt(t, rel, r.tt);
    }
  }

  lemma {:induction false} IndexBuilt(t: Table, rel: Relation, m: Index)
    requires BuildIndex(t, rel) == Success(m)
    ensures AllParse(t, rel)
    ensures Indexed(t, rel, m)
  {
  }

  // ---------------------------------------------------------------------
  // Properties of the expected buckets

  /** Only kept sources are listed in a bucket. */
  lemma {:induction false} BucketMembersAreSources(t: Table, rel: Relation, k: string, x: string)
    requires x in ExpectedBucket(t, rel, k)
    ensures exists i | 0 <= i < |t| :: t[i].name == x && Occurrences(t[i].rec, rel, k) > 0
  {
    if |t| > 0 {
      var init := t[..|t| - 1];
      var e := t[|t| - 1];
      if x in ExpectedBucket(init, rel, k) {
        BucketMembersAreSources(init, rel, k, x);
        var i :| 0 <= i < |init| && init[i].name == x && Occurrences(init[i].rec, rel, k) > 0;
        assert t[i] == init[i];
      } else {
        assert x in Repeat(e.name, Occurrences(e.rec, rel, k));
      }
    }
  }

  /** In a table with one entry per name, a source is listed in a bucket
      once per clause of its field that starts with the key. */
  lemma {:induction false} BucketCount(t: Table, rel: Relation, k: string, i: int)
    requires Distinct(NameSeq(t))
    requires 0 <= i < |t|
    ensures multiset(ExpectedBucket(t, rel, k))[t[i].name] == Occurrences(t[i].rec, rel, k)
  {
    var init := t[..|t| - 1];
    var e := t[|t| - 1];
    var x := t[i].name;
    assert NameSeq(init) == NameSeq(t)[..|t| - 1];
    assert multiset(ExpectedBucket(t, rel, k))[x]
        == multiset(ExpectedBucket(init, rel, k))[x] + multiset(Repeat(e.name, Occurrences(e.rec, rel, k)))[x];
    if i < |t| - 1 {
      assert init[i] == t[i];
      BucketCount(init, rel, k, i);
      assert NameSeq(t)[i] != NameSeq(t)[|t| - 1];
      RepeatCountOther(e.name, Occurrences(e.rec, rel, k), x);
    } else {
      NotInBucket(init, rel, k, x);
      RepeatCountSame(x, Occurrences(e.rec, rel, k));
    }
  }

  lemma {:induction false} NotInBucket(t: Table, rel: Relation, k: string, x: string)
    requires forall i | 0 <= i < |t| :: t[i].name != x
    ensures multiset(ExpectedBucket(t, rel, k))[x] == 0
  {
    if x in ExpectedBucket(t, rel, k) {
      BucketMembersAreSources(t, rel, k, x);
    }
  }

  lemma {:induction false} RepeatCountSame(x: string, n: nat)
    ensures multiset(Repeat(x, n))[x] == n
  {
    if n > 0 {
      assert Repeat(x, n) == Repeat(x, n - 1) + [x];
      RepeatCountSame(x, n - 1);
    }
  }

  lemma {:induction false} RepeatCountOther(x: string, n: nat, y: string)
    requires y != x
    ensures multiset(Repeat(x, n))[y] == 0
  {
    assert y !in Repeat(x, n);
  }

  /** A bucket lists sources in table order: whenever position `p` precedes
      position `q`, the entry named at `p` does not come after the one named
      at `q`. */
  lemma {:induction false} BucketInTableOrder(t: Table, rel: Relation, k: string, p: int, q: int)
    requires Distinct(NameSeq(t))
    requires 0 <= p < q < |ExpectedBucket(t, rel, k)|
    ensures IndexOf(t, ExpectedBucket(t, rel, k)[p]) <= IndexOf(t, ExpectedBucket(t, rel, k)[q])
  {
    var b := ExpectedBucket(t, rel, k);
    var init := t[..|t| - 1];
    var e := t[|t| - 1];
    var bi := ExpectedBucket(init, rel, k);
    assert NameSeq(init) == NameSeq(t)[..|t| - 1];
    assert b == bi + Repeat(e.name, Occurrences(e.rec, rel, k));
    LastIsFirstOfName(t);
    if q < |bi| {
      assert b[p] == bi[p] && b[q] == bi[q];
      BucketInTableOrder(init, rel, k, p, q);
      InitIndex(t, rel, k, bi[p]);
      InitIndex(t, rel, k, bi[q]);
    } else if p < |bi| {
      assert b[p] == bi[p] && b[q] == e.name;
      InitIndex(t, rel, k, bi[p]);
    } else {
      assert b[p] == e.name && b[q] == e.name;
    }
  }

  /** With distinct names, the last entry is found at its own position. */
  lemma {:induction false} LastIsFirstOfName(t: Table)
    requires |t| > 0 && Distinct(NameSeq(t))
    ensures IndexOf(t, t[|t| - 1].name) == |t| - 1
  {
    var last := |t| - 1;
    forall j | 0 <= j < last ensures t[j].name != t[last].name {
      assert NameSeq(t)[j] != NameSeq(t)[last];
    }
    IndexOfIsFirst(t, t[last].name, last);
  }

  /** A source listed in the bucket of a prefix keeps its position. */
  lemma {:induction false} InitIndex(t: Table, rel: Relation, k: string, x: string)
    requires |t| > 0
    requires x in ExpectedBucket(t[..|t| - 1], rel, k)
    ensures 0 <= IndexOf(t, x) == IndexOf(t[..|t| - 1], x) < |t| - 1
  {
    var init := t[..|t| - 1];
    BucketMembersAreSources(init, rel, k, x);
    var j :| 0 <= j < |init| && init[j].name == x && Occurrences(init[j].rec, rel, k) > 0;
    assert x in Names(init);
    var i := IndexOf(init, x);
    assert init[i] == t[i];
    forall m | 0 <= m < i ensures t[m].name != x {
      assert init[m] == t[m];
    }
    IndexOfIsFirst(t, x, i);
  }
}
