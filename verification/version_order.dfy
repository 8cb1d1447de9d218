/** The archive's version ordering, kept abstract. The source calls
    `apt_pkg.version_compare(a, b)`, whose sign orders two Debian version
    strings as section 5.6.12 of the Debian Policy Manual describes; here it
    is a function parameter, and the facts the index relies on are stated
    as the predicate `IsVersionOrder`. */
module VersionOrder {

  /** A three-way comparison: positive when the first version is newer. */
  type Comparator = (string, string) -> int

  /** `cmp` is a total preorder presented as a three-way comparison: every
      version equals itself, the sign flips when the arguments are swapped,
      and "not older than" is transitive. Distinct strings may compare equal
      (as "1.0" and "1.00" do for Debian versions). */
  ghost predicate IsVersionOrder(cmp: Comparator) {
    && (forall a :: cmp(a, a) == 0)
    && (forall a, b :: cmp(a, b) > 0 <==> cmp(b, a) < 0)
    && (forall a, b, c :: cmp(a, b) >= 0 && cmp(b, c) >= 0 ==> cmp(a, c) >= 0)
  }

  /** Newer than something not older than `c` is newer than `c`. */
  lemma {:induction false} NewerThenNotOlder(cmp: Comparator, a: string, b: string, c: string)
    requires IsVersionOrder(cmp)
    requires cmp(a, b) > 0 && cmp(b, c) >= 0
    ensures cmp(a, c) > 0
  {
  }

  /** When `a` is not newer than `b`, `b` is not older than `a`. */
  lemma {:induction false} NotNewerFlips(cmp: Comparator, a: string, b: string)
    requires IsVersionOrder(cmp)
    requires cmp(a, b) <= 0
    ensures cmp(b, a) >= 0
  {
  }
}
