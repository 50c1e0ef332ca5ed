/**
 * Identifiers the injector issues: the per-type instance id `<type>_<n>` and
 * the collision-free child subcatchment name `<base>##<id>` or
 * `<base>##<id>###<k>`.
 */
module Identifiers {
  import opened Wrappers
  import opened Format
  import opened SwmmInput
  import opened ZoneLookup

  /** The id of the `count`-th LID of type `lidType`. */
  function LidId(lidType: string, count: nat): string {
    lidType + "_" + NatToString(count)
  }

  /** Position of the last occurrence of `c` in `s`, or -1. */
  function LastIndexOf(s: string, c: char): int {
    if |s| == 0 then -1
    else if s[|s| - 1] == c then |s| - 1
    else LastIndexOf(s[..|s| - 1], c)
  }

  lemma {:induction false} LastIndexOfSeparator(t: string, c: char, d: string)
    requires forall k :: 0 <= k < |d| ==> d[k] != c
    ensures LastIndexOf(t + [c] + d, c) == |t|
  {
    var s := t + [c] + d;
    if |d| > 0 {
      assert s[..|s| - 1] == t + [c] + d[..|d| - 1];
      LastIndexOfSeparator(t, c, d[..|d| - 1]);
    }
  }

  /** Distinct (type, count) pairs give distinct ids: the count's digits never contain `_`. */
  lemma LidIdInjective(t1: string, k1: nat, t2: string, k2: nat)
    requires LidId(t1, k1) == LidId(t2, k2)
    ensures t1 == t2 && k1 == k2
  {
    var s, d1, d2 := LidId(t1, k1), NatToString(k1), NatToString(k2);
    LastIndexOfSeparator(t1, '_', d1);
    LastIndexOfSeparator(t2, '_', d2);
    assert t1 + "_" + d1 == t1 + ['_'] + d1;
    assert t2 + "_" + d2 == t2 + ['_'] + d2;
    assert |t1| == |t2|;
    assert s[..|t1|] == t1 && s[..|t2|] == t2;
    assert s[|t1| + 1..] == d1 && s[|t2| + 1..] == d2;
    NatToStringInjective(k1, k2);
  }

  /** The `k`-th name tried for the child subcatchment of `base` hosting LID `id`. */
  function ChildNameCandidate(base: string, id: string, k: nat): string {
    if k == 0 then base + "##" + id else base + "##" + id + "###" + NatToString(k)
  }

  lemma CandidateInjective(base: string, id: string, j: nat, k: nat)
    requires ChildNameCandidate(base, id, j) == ChildNameCandidate(base, id, k)
    ensures j == k
  {
    var prefix := base + "##" + id + "###";
    if j > 0 && k > 0 {
      assert ChildNameCandidate(base, id, j)[|prefix|..] == NatToString(j);
      assert ChildNameCandidate(base, id, k)[|prefix|..] == NatToString(k);
      NatToStringInjective(j, k);
    }
  }

  /** The names tried before the `k`-th. */
  function CandidatesBelow(base: string, id: string, k: nat): set<string> {
    set j | 0 <= j < k :: ChildNameCandidate(base, id, j)
  }

  lemma {:induction false} CandidatesBelowGrow(names: set<string>, base: string, id: string, k: nat)
    requires ChildNameCandidate(base, id, k) in names
    ensures |names - CandidatesBelow(base, id, k + 1)| < |names - CandidatesBelow(base, id, k)|
  {
    var c := ChildNameCandidate(base, id, k);
    assert CandidatesBelow(base, id, k + 1) == CandidatesBelow(base, id, k) + {c};
    assert c !in CandidatesBelow(base, id, k) by {
      forall j | 0 <= j < k ensures ChildNameCandidate(base, id, j) != c {
        if ChildNameCandidate(base, id, j) == c {
          CandidateInjective(base, id, j, k);
        }
      }
    }
    assert names - CandidatesBelow(base, id, k + 1) == (names - CandidatesBelow(base, id, k)) - {c};
  }

  /** The smallest suffix from `k` on whose candidate is not taken; it exists because `names` is finite. */
  function FirstFreeSuffix(names: set<string>, base: string, id: string, k: nat): (r: nat)
    ensures k <= r && ChildNameCandidate(base, id, r) !in names
    ensures forall j :: k <= j < r ==> ChildNameCandidate(base, id, j) in names
    decreases |names - CandidatesBelow(base, id, k)|
  {
    if ChildNameCandidate(base, id, k) !in names then k
    else
      CandidatesBelowGrow(names, base, id, k);
      FirstFreeSuffix(names, base, id, k + 1)
  }

  /** The child subcatchment name: the first candidate that no existing subcatchment carries. */
  function ChildName(names: set<string>, base: string, id: string): (r: string)
    ensures r !in names
    ensures r == base + "##" + id || base + "##" + id in names
  {
    ChildNameCandidate(base, id, FirstFreeSuffix(names, base, id, 0))
  }

  /** The child name is `<base>##<id>` when free, else `<base>##<id>###<k>` for the least free k >= 1. */
  lemma ChildNameIsLeastFree(names: set<string>, base: string, id: string)
    ensures base + "##" + id !in names ==> ChildName(names, base, id) == base + "##" + id
    ensures base + "##" + id in names ==>
      exists k: nat :: 1 <= k && ChildName(names, base, id) == base + "##" + id + "###" + NatToString(k) &&
        forall j :: 1 <= j < k ==> base + "##" + id + "###" + NatToString(j) in names
  {
    var k := FirstFreeSuffix(names, base, id, 0);
    if base + "##" + id in names {
      assert k != 0;
      forall j | 1 <= j < k ensures base + "##" + id + "###" + NatToString(j) in names {
        assert ChildNameCandidate(base, id, j) in names;
      }
    }
  }

  /**
   * The source's collision loop: try `<base>##<id>`, then `<base>##<id>###1`,
   * `###2`, ... until no subcatchment record carries the name.
   */
  method UniqueChildName(s: Sections, base: string, id: string) returns (name: string, suffix: nat)
    ensures name == ChildName(SubcatchmentNames(s), base, id)
    ensures name == ChildNameCandidate(base, id, suffix) && name !in SubcatchmentNames(s)
    ensures forall j :: 0 <= j < suffix ==> ChildNameCandidate(base, id, j) in SubcatchmentNames(s)
  {
    ghost var names := SubcatchmentNames(s);
    suffix := 0;
    name := base + "##" + id;
    var existing := GetSubcatchmentDefinition(s, name);
    while existing.Some?
      invariant name == ChildNameCandidate(base, id, suffix)
      invariant existing.Some? <==> name in names
      invariant FirstFreeSuffix(names, base, id, suffix) == FirstFreeSuffix(names, base, id, 0)
      decreases |names - CandidatesBelow(base, id, suffix)|
    {
      CandidatesBelowGrow(names, base, id, suffix);
      suffix := suffix + 1;
      name := base + "##" + id + "###" + NatToString(suffix);
      existing := GetSubcatchmentDefinition(s, name);
    }
  }
}
