/** Destination paths in a bucket folder and the duplicate-name loop of
    `organize_photos` (the same in both organizers). Paths are strings
    relative to the destination directory, `folder/name`; `existing` is the
    finite set of paths for which `os.path.exists` holds. */
module PathPlanner {
  import opened Text

  /** `os.path.join(folder, name)`. */
  function JoinPath(folder: string, name: string): string {
    folder + "/" + name
  }

  /** `os.path.join(folder, f"{base}_{k}{ext}")`. */
  function Candidate(folder: string, base: string, ext: string, k: nat): string {
    folder + "/" + base + "_" + NatToString(k) + ext
  }

  /** Distinct counters give distinct candidate paths. */
  lemma CandidateInjective(folder: string, base: string, ext: string, j: nat, k: nat)
    requires Candidate(folder, base, ext, j) == Candidate(folder, base, ext, k)
    ensures j == k
  {
    var p := folder + "/" + base + "_";
    var a, b := NatToString(j), NatToString(k);
    assert Candidate(folder, base, ext, j) == p + a + ext;
    assert Candidate(folder, base, ext, k) == p + b + ext;
    assert |a| == |b|;
    assert a == (p + a + ext)[|p|..|p| + |a|];
    assert b == (p + b + ext)[|p|..|p| + |b|];
    NatToStringInjective(j, k);
  }

  /** The candidates with counters 1 .. k-1. */
  function Tried(folder: string, base: string, ext: string, k: nat): set<string>
    decreases k
  {
    if k <= 1 then {} else Tried(folder, base, ext, k - 1) + {Candidate(folder, base, ext, k - 1)}
  }

  lemma {:induction false} TriedExcludesLater(folder: string, base: string, ext: string, k: nat, j: nat)
    requires j >= k
    ensures Candidate(folder, base, ext, j) !in Tried(folder, base, ext, k)
    decreases k
  {
    if k > 1 {
      TriedExcludesLater(folder, base, ext, k - 1, j);
      if Candidate(folder, base, ext, j) == Candidate(folder, base, ext, k - 1) {
        CandidateInjective(folder, base, ext, j, k - 1);
      }
    }
  }

  /** The first candidate from counter `k` on that does not exist. */
  function FreeFrom(existing: set<string>, folder: string, base: string, ext: string, k: nat): (r: string)
    requires k >= 1
    ensures r !in existing
    ensures exists n :: n >= k && r == Candidate(folder, base, ext, n) &&
                        forall j :: k <= j < n ==> Candidate(folder, base, ext, j) in existing
    decreases existing - Tried(folder, base, ext, k)
  {
    var c := Candidate(folder, base, ext, k);
    if c !in existing then c
    else
      TriedExcludesLater(folder, base, ext, k, k);
      assert existing - Tried(folder, base, ext, k + 1) < existing - Tried(folder, base, ext, k);
      var r := FreeFrom(existing, folder, base, ext, k + 1);
      var n: nat :| n >= k + 1 && r == Candidate(folder, base, ext, n) &&
               forall j :: k + 1 <= j < n ==> Candidate(folder, base, ext, j) in existing;
      assert forall j :: k <= j < n ==> Candidate(folder, base, ext, j) in existing;
      r
  }

  /** The path a file named `filename` is copied to in `folder`: the plain
      name when it is free, otherwise the first free `base_k.ext`. */
  function Target(existing: set<string>, folder: string, filename: string): (r: string)
    ensures r !in existing
  {
    var plain := JoinPath(folder, filename);
    if plain !in existing then plain
    else FreeFrom(existing, folder, SplitExt(filename).0, SplitExt(filename).1, 1)
  }

  /** The target is the plain name if that is free; otherwise it is
      `base_k.ext` for the smallest `k >= 1` whose path does not exist. */
  lemma TargetIsFirstFree(existing: set<string>, folder: string, filename: string, k: nat)
    ensures JoinPath(folder, filename) !in existing ==>
              Target(existing, folder, filename) == JoinPath(folder, filename)
    ensures var base, ext := SplitExt(filename).0, SplitExt(filename).1;
            JoinPath(folder, filename) in existing && k >= 1 &&
            Candidate(folder, base, ext, k) !in existing &&
            (forall j :: 1 <= j < k ==> Candidate(folder, base, ext, j) in existing) ==>
              Target(existing, folder, filename) == Candidate(folder, base, ext, k)
  {
    var base, ext := SplitExt(filename).0, SplitExt(filename).1;
    if JoinPath(folder, filename) in existing && k >= 1 &&
       Candidate(folder, base, ext, k) !in existing &&
       (forall j :: 1 <= j < k ==> Candidate(folder, base, ext, j) in existing) {
      var r := FreeFrom(existing, folder, base, ext, 1);
      var n: nat :| n >= 1 && r == Candidate(folder, base, ext, n) &&
               forall j :: 1 <= j < n ==> Candidate(folder, base, ext, j) in existing;
      assert n < k ==> Candidate(folder, base, ext, n) in existing;
      assert n > k ==> Candidate(folder, base, ext, k) in existing;
    }
  }

  /** The duplicate-name loop: start from the plain name and, while the
      path exists, try `base_1.ext`, `base_2.ext`, ... */
  method ResolveTarget(existing: set<string>, folder: string, filename: string) returns (path: string)
    ensures path == Target(existing, folder, filename)
    ensures path !in existing
  {
    path := JoinPath(folder, filename);
    if path in existing {
      var base, ext := SplitExt(filename).0, SplitExt(filename).1;
      var counter: nat := 1;
      while path in existing
        invariant counter >= 1
        invariant counter == 1 ==> path == JoinPath(folder, filename) && path in existing
        invariant counter > 1 ==> path == Candidate(folder, base, ext, counter - 1) &&
                                  FreeFrom(existing, folder, base, ext, counter - 1) == Target(existing, folder, filename)
        decreases existing - Tried(folder, base, ext, counter - 1), if counter == 1 then 1 else 0
      {
        if counter > 1 {
          TriedExcludesLater(folder, base, ext, counter - 1, counter - 1);
          assert existing - Tried(folder, base, ext, counter) < existing - Tried(folder, base, ext, counter - 1);
        }
        path := Candidate(folder, base, ext, counter);
        counter := counter + 1;
      }
    }
  }
}
