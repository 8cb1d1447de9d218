/** `is_python2_dep` (common.py:46-51): whether a dependency name looks like
    a Python 2 package, judged from its prefix and suffix alone. */
module Python2 {
  import opened Results
  import opened PyStr

  /** Names starting with one of these are candidates (line 47). */
  const Candidates: seq<string> := ["python", "libpython", "cython"]

  /** Suffixes that mark documentation, data and test packages (line 48). */
  const ExcludedSuffixes: seq<string> := ["-doc", "-docs", "-common", "-examples", "-data", "-test", "-tpl"]

  /** Prefixes of Python 3 and other non-Python-2 packages (line 49). */
  const ExcludedPrefixes: seq<string> :=
    ["python3", "libboost-python", "libpython3", "python-gi-dev", "cython3", "python-pip-whl", "python-odf-tools", "pythonpy"]

  /** The function returns its argument when it judges it a Python 2
      dependency and `False` otherwise; `None` stands for `False`. */
  function IsPython2Dep(dep: string): (r: Option<string>)
    ensures r.Some? ==> r.value == dep
    ensures r.Some? <==>
      && StartsWithAny(dep, Candidates)
      && !EndsWithAny(dep, ExcludedSuffixes)
      && !StartsWithAny(dep, ExcludedPrefixes)
  {
    if StartsWithAny(dep, Candidates)
       && !(EndsWithAny(dep, ExcludedSuffixes) || StartsWithAny(dep, ExcludedPrefixes))
    then Some(dep)
    else None
  }

  /** Every accepted name starts with "python", "libpython" or "cython". */
  lemma {:induction false} AcceptedHasCandidatePrefix(dep: string)
    requires IsPython2Dep(dep).Some?
    ensures StartsWith(dep, "python") || StartsWith(dep, "libpython") || StartsWith(dep, "cython")
  {
    var p :| p in Candidates && StartsWith(dep, p);
  }

  /** No Python 3 name is accepted, whatever follows the prefix. */
  lemma {:induction false} Python3Rejected(dep: string)
    requires StartsWith(dep, "python3") || StartsWith(dep, "libpython3") || StartsWith(dep, "cython3")
    ensures IsPython2Dep(dep).None?
  {
    if StartsWith(dep, "python3") {
      assert ExcludedPrefixes[0] == "python3";
    } else if StartsWith(dep, "libpython3") {
      assert ExcludedPrefixes[2] == "libpython3";
    } else {
      assert ExcludedPrefixes[4] == "cython3";
    }
  }

  /** Documentation packages are never accepted. */
  lemma {:induction false} DocRejected(dep: string)
    requires EndsWith(dep, "-doc") || EndsWith(dep, "-docs")
    ensures IsPython2Dep(dep).None?
  {
    if EndsWith(dep, "-doc") {
      assert ExcludedSuffixes[0] == "-doc";
    } else {
      assert ExcludedSuffixes[1] == "-docs";
    }
  }

  /** A name that does not start with any candidate prefix is rejected. */
  lemma {:induction false} NonCandidateRejected(dep: string)
    requires !StartsWith(dep, "python") && !StartsWith(dep, "libpython") && !StartsWith(dep, "cython")
    ensures IsPython2Dep(dep).None?
  {
    forall p | p in Candidates ensures !StartsWith(dep, p) {
    }
  }

  /** `s` does not start with `p` when they differ at a position inside
      both. */
  lemma {:induction false} DiffersAt(s: string, p: string, i: nat)
    requires i < |s| && i < |p| && s[i] != p[i]
    ensures !StartsWith(s, p)
  {
  }

  /** `s` does not end with `x` when `x` is longer or their last characters
      differ. */
  lemma {:induction false} LastDiffers(s: string, x: string)
    requires |x| > |s| || (|x| > 0 && |s| > 0 && s[|s| - 1] != x[|x| - 1])
    ensures !EndsWith(s, x)
  {
    if |x| <= |s| {
      assert s[|s| - |x|..][|x| - 1] == s[|s| - 1];
    }
  }

  /** None of the exclusion suffixes ends in 'x', so a name ending in 'x' is
      not a documentation, data or test package. */
  lemma {:induction false} EndsInXNotExcludedBySuffix(dep: string)
    requires |dep| > 0 && dep[|dep| - 1] == 'x'
    ensures forall x | x in ExcludedSuffixes :: !EndsWith(dep, x)
  {
    forall x | x in ExcludedSuffixes ensures !EndsWith(dep, x) {
      LastDiffers(dep, x);
    }
  }

  /** Example: "python-six" is a Python 2 dependency. */
  lemma {:induction false} PythonSixAccepted()
    ensures IsPython2Dep("python-six") == Some("python-six")
  {
    var a := "python-six";
    assert StartsWith(a, Candidates[0]);
    DiffersAt(a, "python3", 6);
    DiffersAt(a, "libboost-python", 0);
    DiffersAt(a, "libpython3", 0);
    DiffersAt(a, "python-gi-dev", 7);
    DiffersAt(a, "cython3", 0);
    DiffersAt(a, "python-pip-whl", 7);
    DiffersAt(a, "python-odf-tools", 7);
    DiffersAt(a, "pythonpy", 6);
    EndsInXNotExcludedBySuffix(a);
  }

  /** Example: "python3-six" is not (it starts with "python3"), and neither
      is its documentation package "python-six-doc" nor "pythonpy". */
  lemma {:induction false} RejectedExamples()
    ensures IsPython2Dep("python3-six").None?
    ensures IsPython2Dep("python-six-doc").None?
    ensures IsPython2Dep("pythonpy").None?
    ensures IsPython2Dep("").None?
  {
    Python3Rejected("python3-six");
    DocRejected("python-six-doc");
    assert StartsWith("pythonpy", ExcludedPrefixes[7]);
    NonCandidateRejected("");
  }
}
