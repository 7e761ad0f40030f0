/** A caller's view of the handler: what the contracts alone let it conclude
    about a browser download and about a manual copy. */
module Scenarios {
  import opened Names
  import opened Rules
  import opened Markers
  import opened Namer
  import opened Stability
  import opened Sorter

  /** The final name of the download. */
  lemma FinalName()
    ensures ExtOf("report.pdf") == ".pdf"
    ensures KeyOf("report.pdf") == "report.pdf"
  {
    ReportSplit();
    LowerOfLowerCase(".pdf");
    LowerOfLowerCase("report.pdf");
  }

  /** The name the browser writes to while downloading. */
  lemma PartialName()
    ensures ExtOf("report.pdf.crdownload") == ".crdownload"
    ensures KeyOf("report.pdf.crdownload") == "report.pdf.crdownload"
  {
    PartialSplit();
    LowerOfLowerCase(".crdownload");
    PartialKey();
  }

  lemma PartialKey()
    ensures Lower("report.pdf.crdownload") == "report.pdf.crdownload"
  {
    LowerOfLowerCase("report.pdf.crdownload");
  }

  lemma PartialSplit()
    ensures Suffix("report.pdf.crdownload") == ".crdownload"
  {
    assert "report.pdf" + ".crdownload" == "report.pdf.crdownload";
    assert ".crdownload"[1..] == "crdownload";
    SplitJoin("report.pdf", ".crdownload");
  }

  /** The manually copied picture. */
  lemma PhotoNames()
    ensures ExtOf("photo.png") == ".png"
  {
    assert "photo" + ".png" == "photo.png";
    assert ".png"[1..] == "png";
    SplitJoin("photo", ".png");
    LowerOfLowerCase(".png");
  }

  /** A size of 4096 bytes read every poll interval from tick 1000 on. */
  function SteadyProbes(): (probes: seq<Probe>)
    ensures |probes| == MaxPolls + 1
    ensures forall i :: 0 <= i < |probes| ==> probes[i] == Sized(4096, 1000 + i * PollInterval)
  {
    seq(MaxPolls + 1, i => Sized(4096, 1000 + i * PollInterval))
  }

  /** The steady observations respect the poll interval. */
  lemma SteadyPaced(start: int)
    requires start <= 1000
    ensures Paced(start, SteadyProbes())
  {
  }

  /** The steady file settles at the fifth poll, tick 3000. */
  lemma SteadySettles()
    ensures VerdictAt(1000, SteadyProbes(), 4)
    ensures Settles(1000, SteadyProbes())
  {
    var probes := SteadyProbes();
    assert RunStart(probes, 0) == 0;
    assert RunStart(probes, 1) == 0;
    assert RunStart(probes, 2) == 0;
    assert RunStart(probes, 3) == 0;
    assert RunStart(probes, 4) == 0;
    assert forall k: nat :: k < 4 ==> Continues(1000, probes, k);
    assert VerdictAt(1000, probes, 4) && SizedUpTo(probes, 4) && StableAt(probes, 4);
  }

  /** The rename marks `report.pdf` and drops the partial name's marker. */
  lemma RenameMarks(src: Path, dst: Path)
    requires src == Path(Downloads, "report.pdf.crdownload") && dst == Path(Downloads, "report.pdf")
    ensures Marked(map["report.pdf.crdownload" := 0], src, dst, 1000, 1000) == map["report.pdf" := 1000]
  {
    FinalName();
    PartialName();
    assert Purged(map["report.pdf.crdownload" := 0], 1000) == map["report.pdf.crdownload" := 0];
  }

  /** With `report.pdf` marked at tick 1000, managed and steady, `maybe_move`
      puts it in the documents folder under its own name and consumes the
      marker. */
  lemma SteadyPdfMoves(entries': map<Path, Entry>, kept: MarkerMap, outcome: Outcome)
    requires MoveSpec(map[Path(Downloads, "report.pdf") := RegularFile], entries',
                      map["report.pdf" := 1000], kept, Path(Downloads, "report.pdf"),
                      MoveEnv(1000, 1000, SteadyProbes(), false), outcome)
    ensures outcome == Moved(Path(CategoryDir(Documents), "report.pdf"))
    ensures kept == map[]
    ensures entries' == map[Path(CategoryDir(Documents), "report.pdf") := RegularFile]
  {
    var final := Path(Downloads, "report.pdf");
    FinalName();
    SteadySettles();
    assert Managed(map[final := RegularFile], final);
    assert Purged(map["report.pdf" := 1000], 1000) == map["report.pdf" := 1000];
    assert outcome.Moved?;
    assert Path(CategoryDir(Documents), "report.pdf") !in map[final := RegularFile];
  }

  /** `report.pdf.crdownload` appears at tick 0 and is renamed to `report.pdf`
      at tick 1000; its size stays put, so it ends up as `report.pdf` in the
      documents folder and its marker is consumed. */
  method BrowserDownload() {
    var partial := Path(Downloads, "report.pdf.crdownload");
    var final := Path(Downloads, "report.pdf");
    var fs := new FileSystem(map[partial := RegularFile]);
    var h := new Handler();
    PartialName();
    h.OnCreated(partial, false, 0);
    assert h.markers == map["report.pdf.crdownload" := 0];
    fs.entries := map[final := RegularFile];
    FinalName();
    SteadyPaced(1000);
    RenameMarks(partial, final);
    var env := MoveEnv(1000, 1000, SteadyProbes(), false);
    var outcome := h.OnMoved(fs, partial, final, false, 1000, 1000, env);
    SteadyPdfMoves(fs.entries, h.markers, outcome.value);
    assert outcome == Some(Moved(Path(CategoryDir(Documents), "report.pdf")));
    assert h.markers == map[];
    assert fs.entries == map[Path(CategoryDir(Documents), "report.pdf") := RegularFile];
  }

  /** `photo.png` copied straight into Downloads is never marked, so a later
      `maybe_move` on it stops at the marker gate. */
  method ManualCopy() {
    var photo := Path(Downloads, "photo.png");
    var fs := new FileSystem(map[photo := RegularFile]);
    var h := new Handler();
    PhotoNames();
    h.OnCreated(photo, false, 0);
    assert h.markers == map[];
    SteadyPaced(0);
    var outcome, kept := MaybeMove(fs, h.markers, photo, MoveEnv(0, 0, SteadyProbes(), false));
    assert outcome == NotMarked;
    assert fs.entries == map[photo := RegularFile];
  }
}
