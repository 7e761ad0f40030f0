/** Paths and the collision-free destination namer. */
module Namer {
  import opened Names
  import opened Rules

  /** The watched Downloads folder, one of the five category folders, or any
      other folder a rename may involve. */
  datatype Dir = Downloads | CategoryDir(category: Category) | OtherDir(id: nat)

  /** A path: the folder and the final component (`Path.name`). */
  datatype Path = Path(dir: Dir, name: string)

  /** The `i`-th alternative for `name` in `dir`: `"{stem} ({i}){suffix}"`. */
  function Candidate(dir: Dir, name: string, i: nat): Path {
    Path(dir, Stem(name) + " (" + Decimal(i) + ")" + Suffix(name))
  }

  /** Different counters give different candidate paths. */
  lemma CandidateInjective(dir: Dir, name: string, i: nat, j: nat)
    requires Candidate(dir, name, i) == Candidate(dir, name, j)
    ensures i == j
  {
    var stem, suffix := Stem(name), Suffix(name);
    var a := stem + " (" + Decimal(i) + ")" + suffix;
    var b := stem + " (" + Decimal(j) + ")" + suffix;
    assert |Decimal(i)| == |Decimal(j)|;
    var lo, hi := |stem| + 2, |stem| + 2 + |Decimal(i)|;
    assert a[lo..hi] == Decimal(i);
    assert b[lo..hi] == Decimal(j);
    DecimalInjective(i, j);
  }

  /** What `unique_dest` promises: the plain `dir/name` when it is free, and
      otherwise the candidate with the least counter `i >= 1` that is free. */
  ghost predicate IsUniqueDest(existing: set<Path>, dir: Dir, name: string, target: Path) {
    if Path(dir, name) !in existing then target == Path(dir, name)
    else exists i: nat :: i >= 1 && target == Candidate(dir, name, i) && target !in existing
                         && forall j: nat :: 1 <= j < i ==> Candidate(dir, name, j) in existing
  }

  /** `unique_dest`: probe `dir/name`, then `"{stem} (1){suffix}"`,
      `"{stem} (2){suffix}"`, ... until a path does not exist. The loop ends
      because the candidates are pairwise distinct and only finitely many paths
      exist. */
  method UniqueDest(existing: set<Path>, dir: Dir, name: string) returns (target: Path)
    ensures target !in existing
    ensures target.dir == dir
    ensures IsUniqueDest(existing, dir, name, target)
  {
    target := Path(dir, name);
    if target !in existing {
      return;
    }
    var i: nat := 1;
    ghost var probed: set<Path> := {};
    while true
      invariant i >= 1
      invariant probed == set j: nat | 1 <= j < i :: Candidate(dir, name, j)
      invariant probed <= existing
      invariant forall j: nat :: 1 <= j < i ==> Candidate(dir, name, j) in existing
      decreases existing - probed
    {
      var candidate := Candidate(dir, name, i);
      if candidate !in existing {
        return candidate;
      }
      forall p | p in probed
        ensures p != candidate
      {
        var j: nat :| 1 <= j < i && p == Candidate(dir, name, j);
        if p == candidate {
          CandidateInjective(dir, name, i, j);
        }
      }
      ghost var next := set j: nat | 1 <= j < i + 1 :: Candidate(dir, name, j);
      assert next == probed + {candidate};
      probed := next;
      i := i + 1;
    }
  }

  /** The namer's choice is determined by the set of existing paths. */
  lemma UniqueDestDeterministic(existing: set<Path>, dir: Dir, name: string, p: Path, q: Path)
    requires IsUniqueDest(existing, dir, name, p)
    requires IsUniqueDest(existing, dir, name, q)
    ensures p == q
  {
    if Path(dir, name) in existing {
      var i: nat :| i >= 1 && p == Candidate(dir, name, i) && p !in existing
                   && forall j: nat :: 1 <= j < i ==> Candidate(dir, name, j) in existing;
      var k: nat :| k >= 1 && q == Candidate(dir, name, k) && q !in existing
                   && forall j: nat :: 1 <= j < k ==> Candidate(dir, name, j) in existing;
    }
  }

  /** A candidate that is free while all smaller ones are taken is the
      namer's choice. */
  lemma LeastFreeCandidate(existing: set<Path>, dir: Dir, name: string, i: nat)
    requires i >= 1 && Path(dir, name) in existing && Candidate(dir, name, i) !in existing
    requires forall j: nat :: 1 <= j < i ==> Candidate(dir, name, j) in existing
    ensures IsUniqueDest(existing, dir, name, Candidate(dir, name, i))
  {
  }

  /** `report.pdf` splits into the stem `report` and the suffix `.pdf`. */
  lemma ReportSplit()
    ensures Stem("report.pdf") == "report" && Suffix("report.pdf") == ".pdf"
  {
    assert "report" + ".pdf" == "report.pdf";
    assert ".pdf"[1..] == "pdf";
    SplitJoin("report", ".pdf");
  }

  /** The first two alternatives for `report.pdf`. */
  lemma ReportCandidates(dir: Dir)
    ensures Candidate(dir, "report.pdf", 1) == Path(dir, "report (1).pdf")
    ensures Candidate(dir, "report.pdf", 2) == Path(dir, "report (2).pdf")
  {
    ReportSplit();
    assert Decimal(1) == "1";
    assert Decimal(2) == "2";
    assert "report" + " (" + "1" + ")" + ".pdf" == "report (1).pdf";
    assert "report" + " (" + "2" + ")" + ".pdf" == "report (2).pdf";
  }

  /** When the plain name and the first alternative are taken and the second
      is free, the namer picks the second. */
  lemma SecondAlternative(existing: set<Path>, dir: Dir, name: string, target: Path)
    requires Path(dir, name) in existing && Candidate(dir, name, 1) in existing
    requires Candidate(dir, name, 2) !in existing
    requires IsUniqueDest(existing, dir, name, target)
    ensures target == Candidate(dir, name, 2)
  {
    assert forall j: nat :: 1 <= j < 2 ==> Candidate(dir, name, j) in existing by {
      forall j: nat | 1 <= j < 2 ensures Candidate(dir, name, j) in existing {
        assert j == 1;
      }
    }
    LeastFreeCandidate(existing, dir, name, 2);
    UniqueDestDeterministic(existing, dir, name, target, Candidate(dir, name, 2));
  }

  /** With `report.pdf` and `report (1).pdf` taken, the namer picks
      `report (2).pdf`, and nothing else. */
  lemma SecondCollision(existing: set<Path>, dir: Dir, target: Path)
    requires Path(dir, "report.pdf") in existing
    requires Path(dir, "report (1).pdf") in existing
    requires Path(dir, "report (2).pdf") !in existing
    requires IsUniqueDest(existing, dir, "report.pdf", target)
    ensures target == Path(dir, "report (2).pdf")
  {
    ReportCandidates(dir);
    SecondAlternative(existing, dir, "report.pdf", target);
  }
}
