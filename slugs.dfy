/**
 * The search behind the private `createSlug`: given the set of slugs that
 * live posts hold, find the first free `base-2`, `base-3`, ...
 */
module Slugs {
  import opened Wrappers
  import opened Text

  /** The interpolated candidate "$slug-$inc". */
  function Candidate(base: string, k: nat): (r: string)
    ensures |r| > |base| + 1 && r[..|base|] == base && r[|base|] == '-'
    ensures forall i :: |base| < i < |r| ==> '0' <= r[i] <= '9'
  {
    base + "-" + NatToString(k)
  }

  lemma CandidateInjective(base: string, a: nat, b: nat)
    requires Candidate(base, a) == Candidate(base, b)
    ensures a == b
  {
    assert NatToString(a) == Candidate(base, a)[|base| + 1..];
    assert NatToString(b) == Candidate(base, b)[|base| + 1..];
    NatToStringInjective(a, b);
  }

  /** The candidates for the suffixes lo, ..., hi - 1. */
  function Candidates(base: string, lo: nat, hi: nat): set<string>
    decreases hi
  {
    if hi <= lo then {} else Candidates(base, lo, hi - 1) + {Candidate(base, hi - 1)}
  }

  lemma {:induction false} CandidateNotBefore(base: string, lo: nat, hi: nat, k: nat)
    requires hi <= k
    ensures Candidate(base, k) !in Candidates(base, lo, hi)
    decreases hi
  {
    if lo < hi {
      if Candidate(base, k) == Candidate(base, hi - 1) {
        CandidateInjective(base, k, hi - 1);
      }
      CandidateNotBefore(base, lo, hi - 1, k);
    }
  }

  /** Distinct suffixes give distinct candidates, so there are hi - lo of them. */
  lemma {:induction false} CandidatesSize(base: string, lo: nat, hi: nat)
    requires lo <= hi
    ensures |Candidates(base, lo, hi)| == hi - lo
    decreases hi
  {
    if lo < hi {
      CandidatesSize(base, lo, hi - 1);
      CandidateNotBefore(base, lo, hi - 1, hi - 1);
    }
  }

  lemma {:induction false} CandidatesWithin(taken: set<string>, base: string, lo: nat, hi: nat)
    requires forall j :: lo <= j < hi ==> Candidate(base, j) in taken
    ensures Candidates(base, lo, hi) <= taken
    decreases hi
  {
    if lo < hi {
      CandidatesWithin(taken, base, lo, hi - 1);
    }
  }

  /**
   * A finite set of slugs holds at most |taken| of the candidates: once
   * suffixes 2 .. hi - 1 are all taken, hi - 2 <= |taken|. This is why the
   * search ends.
   */
  lemma CandidatesBounded(taken: set<string>, base: string, hi: nat)
    requires 2 <= hi
    requires forall j :: 2 <= j < hi ==> Candidate(base, j) in taken
    ensures hi - 2 <= |taken|
  {
    var seen := Candidates(base, 2, hi);
    CandidatesWithin(taken, base, 2, hi);
    CandidatesSize(base, 2, hi);
    assert taken == seen + (taken - seen);
  }

  /** The first suffix from k on whose candidate is free. */
  function FirstFree(taken: set<string>, base: string, k: nat): (r: nat)
    requires 2 <= k
    requires forall j :: 2 <= j < k ==> Candidate(base, j) in taken
    ensures k <= r
    ensures Candidate(base, r) !in taken
    ensures forall j :: 2 <= j < r ==> Candidate(base, j) in taken
    decreases |taken| + 2 - k
  {
    if Candidate(base, k) !in taken then k
    else
      CandidatesBounded(taken, base, k + 1);
      FirstFree(taken, base, k + 1)
  }

  /** Why `createSlug` gives up: the lookup of the bare base slug found nothing. */
  datatype SlugFailure = BaseSlugNotFound | SlugTaken

  /**
   * What `createSlug` yields for base slug `base` when `taken` are the slugs of
   * the live posts: `firstOrFail` fails on a free base; otherwise the first
   * free suffixed candidate.
   */
  function GeneratedSlug(base: string, taken: set<string>): (r: Result<string, SlugFailure>)
    ensures r.Failure? <==> base !in taken
    ensures r.Failure? ==> r.error == BaseSlugNotFound
    ensures r.Success? ==> r.value !in taken
  {
    if base !in taken then Failure(BaseSlugNotFound)
    else Success(Candidate(base, FirstFree(taken, base, 2)))
  }

  /**
   * When the base is taken the generated slug is `base-k` for the least k >= 2
   * whose candidate is free, and for no other k.
   */
  lemma GeneratedSlugIsLeastFree(base: string, taken: set<string>, k: nat)
    requires base in taken
    requires 2 <= k
    ensures GeneratedSlug(base, taken) == Success(Candidate(base, k)) <==>
            Candidate(base, k) !in taken && forall j :: 2 <= j < k ==> Candidate(base, j) in taken
  {
    var r := FirstFree(taken, base, 2);
    if GeneratedSlug(base, taken) == Success(Candidate(base, k)) {
      CandidateInjective(base, r, k);
    }
  }

  /** A second post with a taken title gets the `-2` candidate when that one is free. */
  lemma TakenBaseGetsSuffixTwo(base: string, taken: set<string>)
    requires base in taken
    requires base + "-2" !in taken
    ensures GeneratedSlug(base, taken) == Success(base + "-2")
  {
    assert NatToString(2) == "2";
    assert Candidate(base, 2) == base + "-2";
    GeneratedSlugIsLeastFree(base, taken, 2);
  }
}
