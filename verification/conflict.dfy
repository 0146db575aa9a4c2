/** Destination names and collision handling for the storage template. A
    rendered destination `<full>.<ext>` that is already taken is replaced by
    `<full>+1.<ext>`, then `<full>+2.<ext>`, ..., the first name no file
    occupies. The search has no bound of its own: it stops because the
    filesystem holds finitely many files and the candidate names are pairwise
    distinct. */
module ConflictResolver {
  import opened Common

  type Path = string

  /** The `n`-th candidate: the plain name for 0, the `+n` variant otherwise. */
  function Candidate(full: Path, ext: string, n: nat): Path {
    if n == 0 then full + "." + ext else full + "+" + NatToString(n) + "." + ext
  }

  /** `path` is `full` with a `+<digits>` annotation before `.ext`: a name the
      collision search may have given to an asset whose destination is `full.ext`. */
  predicate IsDuplicateAnnotated(path: Path, full: Path, ext: string) {
    var head := full + "+";
    var tail := "." + ext;
    |head| + |tail| < |path| && StartsWith(path, head) && EndsWith(path, tail)
    && AllDigits(path[|head|..|path| - |tail|])
  }

  lemma CandidateParts(full: Path, ext: string, n: nat)
    requires n > 0
    ensures var c := Candidate(full, ext, n);
      c[..|full| + 1] == full + "+"
      && c[|full| + 1..|c| - |ext| - 1] == NatToString(n)
      && c[|c| - |ext| - 1..] == "." + ext
  {
    assert Candidate(full, ext, n) == (full + "+") + NatToString(n) + ("." + ext);
    ThreeParts(full + "+", NatToString(n), "." + ext);
  }

  /** The three parts of a joined string are its slices. */
  lemma ThreeParts(a: string, b: string, c: string)
    ensures var s := a + b + c;
      s[..|a|] == a && s[|a|..|a| + |b|] == b && s[|a| + |b|..] == c
  {
  }

  /** Every `+n` candidate carries the duplicate annotation. */
  lemma SuffixedCandidateIsAnnotated(full: Path, ext: string, n: nat)
    requires n > 0
    ensures IsDuplicateAnnotated(Candidate(full, ext, n), full, ext)
  {
    CandidateParts(full, ext, n);
  }

  /** Every candidate starts with the rendered name. */
  lemma CandidateExtends(full: Path, ext: string, n: nat)
    ensures StartsWith(Candidate(full, ext, n), full)
  {
    if n == 0 {
      PrefixOfJoin(full, "." + ext);
      assert full + "." + ext == full + ("." + ext);
    } else {
      PrefixOfJoin(full, "+" + NatToString(n) + "." + ext);
      assert full + "+" + NatToString(n) + "." + ext == full + ("+" + NatToString(n) + "." + ext);
    }
  }

  /** The candidate names are pairwise distinct. */
  lemma CandidateInjective(full: Path, ext: string, m: nat, n: nat)
    requires Candidate(full, ext, m) == Candidate(full, ext, n)
    ensures m == n
  {
    if m > 0 && n > 0 {
      CandidateParts(full, ext, m);
      CandidateParts(full, ext, n);
      NatToStringInjective(m, n);
    }
  }

  /** The first `k + 1` candidates. */
  function CandidateSet(full: Path, ext: string, k: nat): (s: set<Path>)
    ensures forall p :: p in s <==> exists i :: 0 <= i <= k && p == Candidate(full, ext, i)
  {
    if k == 0 then {Candidate(full, ext, 0)}
    else
      var prev := CandidateSet(full, ext, k - 1);
      CandidateSetGrows(full, ext, k, prev);
      prev + {Candidate(full, ext, k)}
  }

  lemma CandidateSetGrows(full: Path, ext: string, k: nat, prev: set<Path>)
    requires k > 0
    requires forall p :: p in prev <==> exists i :: 0 <= i <= k - 1 && p == Candidate(full, ext, i)
    ensures forall p :: p in prev + {Candidate(full, ext, k)} <==> exists i :: 0 <= i <= k && p == Candidate(full, ext, i)
  {
    forall p | p in prev + {Candidate(full, ext, k)}
      ensures exists i :: 0 <= i <= k && p == Candidate(full, ext, i)
    {
      if p !in prev {
        assert p == Candidate(full, ext, k);
      }
    }
  }

  lemma {:induction false} CandidateSetSize(full: Path, ext: string, k: nat)
    ensures |CandidateSet(full, ext, k)| == k + 1
    decreases k
  {
    if k > 0 {
      var prev := CandidateSet(full, ext, k - 1);
      var c := Candidate(full, ext, k);
      CandidateSetSize(full, ext, k - 1);
      LaterCandidateIsNew(full, ext, k);
      AddFresh(prev, c);
    }
  }

  /** The `k`-th candidate is none of the earlier ones. */
  lemma LaterCandidateIsNew(full: Path, ext: string, k: nat)
    requires k > 0
    ensures Candidate(full, ext, k) !in CandidateSet(full, ext, k - 1)
  {
    if Candidate(full, ext, k) in CandidateSet(full, ext, k - 1) {
      var i :| 0 <= i <= k - 1 && Candidate(full, ext, k) == Candidate(full, ext, i);
      CandidateInjective(full, ext, k, i);
    }
  }

  lemma AddFresh<T>(s: set<T>, x: T)
    requires x !in s
    ensures |s + {x}| == |s| + 1
  {
  }

  lemma {:induction false} SubsetSize<T>(a: set<T>, b: set<T>)
    requires a <= b
    ensures |a| <= |b|
    decreases |a|
  {
    if a != {} {
      var x :| x in a;
      SubsetSize(a - {x}, b - {x});
    }
  }

  /** When the first `n + 1` candidates are all occupied, there are at least
      `n + 1` files: the search cannot go on forever. */
  lemma CandidatesOccupied(files: set<Path>, full: Path, ext: string, n: nat)
    requires forall j :: 0 <= j <= n ==> Candidate(full, ext, j) in files
    ensures n + 1 <= |files|
  {
    CandidateSetSize(full, ext, n);
    SubsetSize(CandidateSet(full, ext, n), files);
  }

  /** The first free candidate at or after `n`, given that all before `n` are taken. */
  function SearchFree(files: set<Path>, full: Path, ext: string, n: nat): (r: nat)
    requires forall j :: 0 <= j < n ==> Candidate(full, ext, j) in files
    ensures n <= r && Candidate(full, ext, r) !in files
    ensures forall j :: 0 <= j < r ==> Candidate(full, ext, j) in files
    decreases |files| - n
  {
    if Candidate(full, ext, n) !in files then n
    else
      CandidatesOccupied(files, full, ext, n);
      SearchFree(files, full, ext, n + 1)
  }

  /** The suffix the destination receives: the least `n` whose candidate is free. */
  function FreeSuffix(files: set<Path>, full: Path, ext: string): (r: nat)
    ensures Candidate(full, ext, r) !in files
    ensures forall j :: 0 <= j < r ==> Candidate(full, ext, j) in files
  {
    SearchFree(files, full, ext, 0)
  }

  /** The names probed, in order, when the search stops at suffix `k`. */
  function Probes(full: Path, ext: string, k: nat): (ps: seq<Path>)
    ensures |ps| == k + 1
    ensures forall i :: 0 <= i <= k ==> ps[i] == Candidate(full, ext, i)
  {
    if k == 0 then [Candidate(full, ext, 0)] else Probes(full, ext, k - 1) + [Candidate(full, ext, k)]
  }
}
