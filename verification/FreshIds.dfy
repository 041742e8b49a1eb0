/** The search of plan_import for a strategy id that is not taken: stem, stem_2, stem_3, ... */
module FreshIds {

  function Digit(d: nat): char
    requires d < 10
  {
    '0' + d as char
  }

  /** "%d" % n */
  function Dec(n: nat): string {
    if n < 10 then [Digit(n)] else Dec(n / 10) + [Digit(n % 10)]
  }

  function Value(s: string): int {
    if s == "" then 0 else 10 * Value(s[..|s| - 1]) + (s[|s| - 1] as int - '0' as int)
  }

  /** Different numbers are written differently: the text determines the number. */
  lemma {:induction false} DecValue(n: nat)
    ensures Value(Dec(n)) == n
  {
    if n >= 10 {
      DecValue(n / 10);
      assert Dec(n)[..|Dec(n)| - 1] == Dec(n / 10);
    } else {
      assert [Digit(n)][..0] == "";
    }
  }

  /** Digits only, and no zero in front unless the number is 0. */
  lemma {:induction false} DecDigits(n: nat)
    ensures Dec(n) != "" && (forall i :: 0 <= i < |Dec(n)| ==> '0' <= Dec(n)[i] <= '9')
    ensures n > 0 ==> Dec(n)[0] != '0'
  {
    if n >= 10 {
      DecDigits(n / 10);
    }
  }

  function Candidate(stem: string, k: nat): string {
    if k <= 1 then stem else stem + "_" + Dec(k)
  }

  lemma CandidateInjective(stem: string, j: nat, k: nat)
    requires 1 <= j < k
    ensures Candidate(stem, j) != Candidate(stem, k)
  {
    hide Dec;
    DecValue(j);
    DecValue(k);
    assert j > 1 ==> Candidate(stem, j)[|stem| + 1..] == Dec(j);
    assert Candidate(stem, k)[|stem| + 1..] == Dec(k);
  }

  ghost function FirstCandidates(stem: string, n: nat): set<string> {
    if n == 0 then {} else FirstCandidates(stem, n - 1) + {Candidate(stem, n)}
  }

  lemma {:induction false} FirstCandidatesCount(stem: string, n: nat)
    ensures |FirstCandidates(stem, n)| == n
    ensures forall x :: x in FirstCandidates(stem, n) <==> exists k :: 1 <= k <= n && Candidate(stem, k) == x
  {
    hide Candidate;
    if n > 0 {
      FirstCandidatesCount(stem, n - 1);
      forall k | 1 <= k < n
        ensures Candidate(stem, k) != Candidate(stem, n)
      {
        CandidateInjective(stem, k, n);
      }
    }
  }

  lemma {:induction false} SubsetCount<T>(a: set<T>, b: set<T>)
    requires a <= b
    ensures |a| <= |b|
  {
    if a != {} {
      var x :| x in a;
      SubsetCount(a - {x}, b - {x});
    }
  }

  ghost predicate TakenUpTo(stem: string, known: set<string>, n: nat) {
    forall k :: 1 <= k <= n ==> Candidate(stem, k) in known
  }

  /** The walk is over an injective family against a finite set, so it cannot go far. */
  lemma WalkBounded(stem: string, known: set<string>, n: nat)
    requires TakenUpTo(stem, known, n)
    ensures n <= |known|
  {
    FirstCandidatesCount(stem, n);
    assert FirstCandidates(stem, n) <= known;
    SubsetCount(FirstCandidates(stem, n), known);
  }

  /** id is the first free candidate. */
  ghost predicate IsFirstFree(stem: string, known: set<string>, id: string) {
    exists n: nat :: TakenUpTo(stem, known, n) && id == Candidate(stem, n + 1) && id !in known
  }

  lemma FirstFreeUnique(stem: string, known: set<string>, a: string, b: string)
    requires IsFirstFree(stem, known, a) && IsFirstFree(stem, known, b)
    ensures a == b
  {
  }

  /** The while loop over the counter. */
  method FindFreshId(stem: string, known: set<string>) returns (id: string)
    ensures IsFirstFree(stem, known, id)
    ensures id == FreshId(stem, known)
  {
    var counter := 1;
    id := stem;
    WalkBounded(stem, known, 0);
    while id in known
      invariant counter >= 1 && id == Candidate(stem, counter) && TakenUpTo(stem, known, counter - 1)
      invariant counter - 1 <= |known|
      decreases |known| - counter
    {
      assert TakenUpTo(stem, known, counter);
      WalkBounded(stem, known, counter);
      counter := counter + 1;
      id := stem + "_" + Dec(counter);
    }
    FirstFreeUnique(stem, known, id, FreshId(stem, known));
  }

  lemma {:induction false} FreshExists(stem: string, known: set<string>, n: nat)
    requires TakenUpTo(stem, known, n)
    ensures exists id :: IsFirstFree(stem, known, id)
    decreases |known| - n
  {
    WalkBounded(stem, known, n);
    if Candidate(stem, n + 1) in known {
      assert TakenUpTo(stem, known, n + 1);
      WalkBounded(stem, known, n + 1);
      FreshExists(stem, known, n + 1);
    } else {
      assert IsFirstFree(stem, known, Candidate(stem, n + 1));
    }
  }

  /** The id the search ends with. */
  ghost function FreshId(stem: string, known: set<string>): (id: string)
    ensures IsFirstFree(stem, known, id)
  {
    FreshExists(stem, known, 0);
    var id :| IsFirstFree(stem, known, id);
    id
  }

  lemma FreshIdFacts(stem: string, known: set<string>)
    ensures FreshId(stem, known) !in known
    ensures stem <= FreshId(stem, known)
  {
  }
}
