/** The orchestrator `maybe_move` and the event handler whose marker store
    decides which files count as completed downloads. */
module Sorter {
  import opened Names
  import opened Rules
  import opened Markers
  import opened Namer
  import opened Stability

  /** What an existing path is. */
  datatype Entry = RegularFile | Directory

  /** The filesystem as the sorter sees it: every existing path and its kind. */
  class FileSystem {
    var entries: map<Path, Entry>

    constructor (entries: map<Path, Entry>)
      ensures this.entries == entries
    {
      this.entries := entries;
    }
  }

  /** How one `maybe_move` call ended; the last four are the kinds of line it
      logs, the first three are silent returns. */
  datatype Outcome =
    | Vanished             // missing, or not a regular file
    | TempArtifact         // a partial download
    | Unmanaged            // an extension with no destination
    | NotMarked            // "SKIP (not marked as download)"
    | NotStable            // "SKIP (not stable)"
    | Moved(target: Path)  // "MOVED: ..."
    | Failed               // "ERROR in maybe_move"

  /** The lower-cased extension of a file name (`path.suffix.lower()`). */
  function ExtOf(name: string): string {
    Lower(Suffix(name))
  }

  /** The marker key of a file name (`path.name.lower()`). */
  function KeyOf(name: string): string {
    Lower(name)
  }

  /** The suffix of a marker key is its file's extension, so the key alone
      tells whether it names a temp artifact. */
  lemma KeyExtension(name: string)
    ensures Suffix(KeyOf(name)) == ExtOf(name)
  {
    SuffixOfLower(name);
  }

  /** What the outside world contributes to one `maybe_move` call: the clock
      reading taken by its purge, the start and the observations of the
      stability wait, and whether creating the folder, probing names or moving
      raises. */
  datatype MoveEnv = MoveEnv(purgeAt: int, waitStart: int, probes: seq<Probe>, moveFails: bool)

  ghost predicate IsRegularFile(entries: map<Path, Entry>, path: Path) {
    path in entries && entries[path] == RegularFile
  }

  /** The first three gates pass: a regular file, not a temp artifact, and of
      a type that has a destination. */
  ghost predicate Managed(entries: map<Path, Entry>, path: Path) {
    && IsRegularFile(entries, path)
    && ExtOf(path.name) !in TempExts
    && RouteDestination(ExtOf(path.name)).Some?
  }

  /** What one `maybe_move` call on `path` does, given the filesystem before
      (`entries`) and after (`entries'`), the caller's markers before
      (`markers`) and after (`kept`), and the outside world `env`. The gates
      run in order: exists and is a file, not a temp artifact, routed, marked
      after purging, stable; then the file goes to the first free name in its
      category folder and its marker is consumed. Only a move changes the
      filesystem; the first three gates leave the markers as they were, every
      later outcome leaves them purged. */
  ghost predicate MoveSpec(entries: map<Path, Entry>, entries': map<Path, Entry>,
                           markers: MarkerMap, kept: MarkerMap, path: Path, env: MoveEnv,
                           outcome: Outcome)
  {
    var purged := Purged(markers, env.purgeAt);
    var marked := KeyOf(path.name) in purged;
    var settles := Settles(env.waitStart, env.probes);
    && (outcome == Vanished <==> !IsRegularFile(entries, path))
    && (outcome == TempArtifact <==> IsRegularFile(entries, path) && ExtOf(path.name) in TempExts)
    && (outcome == Unmanaged <==>
          && IsRegularFile(entries, path) && ExtOf(path.name) !in TempExts
          && RouteDestination(ExtOf(path.name)).None?)
    && (outcome == NotMarked <==> Managed(entries, path) && !marked)
    && (outcome == NotStable <==> Managed(entries, path) && marked && !settles)
    && (outcome == Failed <==> Managed(entries, path) && marked && settles && env.moveFails)
    && (outcome.Moved? <==> Managed(entries, path) && marked && settles && !env.moveFails)
    && (outcome in {Vanished, TempArtifact, Unmanaged} ==> kept == markers)
    && (outcome in {NotMarked, NotStable, Failed} ==> kept == purged)
    && (!outcome.Moved? ==> entries' == entries)
    && (outcome.Moved? ==>
          && outcome.target !in entries
          && outcome.target.dir == CategoryDir(RouteDestination(ExtOf(path.name)).value)
          && IsUniqueDest(entries.Keys, outcome.target.dir, path.name, outcome.target)
          && entries' == (entries - {path})[outcome.target := RegularFile]
          && kept == purged - {KeyOf(path.name)})
  }

  /** `maybe_move`; `markers` is the caller's dictionary, returned as `kept`
      after the call's updates. An exception from creating the folder, probing
      names or moving (`env.moveFails`) leaves the file where it is. */
  method MaybeMove(fs: FileSystem, markers: MarkerMap, path: Path, env: MoveEnv)
    returns (outcome: Outcome, kept: MarkerMap)
    requires Paced(env.waitStart, env.probes)
    modifies fs
    ensures MoveSpec(old(fs.entries), fs.entries, markers, kept, path, env, outcome)
    ensures outcome.Moved? ==> path !in fs.entries
  {
    kept := markers;
    if path !in fs.entries || fs.entries[path] != RegularFile {
      return Vanished, kept;
    }
    var ext := ExtOf(path.name);
    if ext in TempExts {
      return TempArtifact, kept;
    }
    var dest := RouteDestination(ext);
    if dest.None? {
      return Unmanaged, kept;
    }
    kept := PurgeOld(kept, env.purgeAt);
    var key := KeyOf(path.name);
    if key !in kept {
      return NotMarked, kept;
    }
    var stable, _ := WaitUntilStable(env.waitStart, env.probes);
    if !stable {
      return NotStable, kept;
    }
    if env.moveFails {
      return Failed, kept;
    }
    var dir := CategoryDir(dest.value);
    var target := UniqueDest(fs.entries.Keys, dir, path.name);
    fs.entries := (fs.entries - {path})[target := RegularFile];
    kept := kept - {key};
    outcome := Moved(target);
  }

  /** The rename `src -> dst` is the last step of a download: a temp artifact
      becomes a file with a non-temp extension. */
  predicate CompletesDownload(src: Path, dst: Path, isDirectory: bool) {
    !isDirectory && ExtOf(src.name) in TempExts && ExtOf(dst.name) !in TempExts
  }

  /** The markers after `on_moved` has purged at `purgeAt`, marked the final
      name at `markAt` and dropped the temp name. */
  function Marked(markers: MarkerMap, src: Path, dst: Path, purgeAt: int, markAt: int): MarkerMap {
    Purged(markers, purgeAt)[KeyOf(dst.name) := markAt] - {KeyOf(src.name)}
  }

  /** After a completed download the final name carries the fresh mark and the
      temp name carries none: the two keys differ because exactly one of them
      has a temp extension. */
  lemma MarkedFinalName(markers: MarkerMap, src: Path, dst: Path, isDirectory: bool, purgeAt: int, markAt: int)
    requires CompletesDownload(src, dst, isDirectory)
    ensures KeyOf(dst.name) in Marked(markers, src, dst, purgeAt, markAt)
    ensures Marked(markers, src, dst, purgeAt, markAt)[KeyOf(dst.name)] == markAt
    ensures KeyOf(src.name) !in Marked(markers, src, dst, purgeAt, markAt)
  {
    KeyExtension(src.name);
    KeyExtension(dst.name);
  }

  /** The fresh mark survives the purge inside `maybe_move` unless more than
      the TTL passes between marking and that purge. */
  lemma FreshMarkSurvives(markers: MarkerMap, src: Path, dst: Path, isDirectory: bool,
                          purgeAt: int, markAt: int, later: int)
    requires CompletesDownload(src, dst, isDirectory)
    requires later <= markAt + TempSeenTtl
    ensures KeyOf(dst.name) in Purged(Marked(markers, src, dst, purgeAt, markAt), later)
  {
    MarkedFinalName(markers, src, dst, isDirectory, purgeAt, markAt);
  }

  /** Every marker either names a temp artifact or a final name produced by a
      temp-to-final rename. */
  ghost predicate Provenance(markers: MarkerMap, downloaded: set<string>) {
    forall k :: k in markers ==> Suffix(k) in TempExts || k in downloaded
  }

  /** The download-only policy: a marked file that passes the temp gate got its
      name from a temp-to-final rename. */
  lemma DownloadOnly(markers: MarkerMap, downloaded: set<string>, name: string)
    requires Provenance(markers, downloaded)
    requires KeyOf(name) in markers && ExtOf(name) !in TempExts
    ensures KeyOf(name) in downloaded
  {
    KeyExtension(name);
  }

  /** The watchdog handler. Its only state is the marker store; `downloaded`
      records, for the proofs, every final name marked by a completed
      download. */
  class Handler {
    var markers: MarkerMap
    ghost var downloaded: set<string>

    ghost predicate Valid()
      reads this
    {
      Provenance(markers, downloaded)
    }

    constructor ()
      ensures Valid() && markers == map[] && downloaded == {}
    {
      markers := map[];
      downloaded := {};
    }

    /** `on_created`: a temp artifact is marked under its lower-cased name;
        directories and every other file leave the markers alone. It never
        touches the filesystem, so a file created directly is never moved. */
    method OnCreated(path: Path, isDirectory: bool, now: int)
      requires Valid()
      modifies this
      ensures Valid() && downloaded == old(downloaded)
      ensures !isDirectory && ExtOf(path.name) in TempExts ==>
                markers == old(markers)[KeyOf(path.name) := now]
      ensures isDirectory || ExtOf(path.name) !in TempExts ==> markers == old(markers)
    {
      if isDirectory {
        return;
      }
      var ext := ExtOf(path.name);
      if ext in TempExts {
        KeyExtension(path.name);
        markers := markers[KeyOf(path.name) := now];
      }
    }

    /** `on_moved`: only a temp-to-final rename acts. It purges at `purgeAt`,
        marks the final name at `markAt`, drops the temp name's marker and runs
        `maybe_move` on the final path; the result is that call's outcome.
        Every other rename changes nothing. */
    method OnMoved(fs: FileSystem, src: Path, dst: Path, isDirectory: bool,
                   purgeAt: int, markAt: int, env: MoveEnv)
      returns (outcome: Option<Outcome>)
      requires Valid()
      requires Paced(env.waitStart, env.probes)
      modifies this, fs
      ensures Valid()
      ensures outcome.Some? <==> CompletesDownload(src, dst, isDirectory)
      ensures outcome.None? ==>
                && markers == old(markers) && downloaded == old(downloaded)
                && fs.entries == old(fs.entries)
      ensures outcome.Some? ==> downloaded == old(downloaded) + {KeyOf(dst.name)}
      ensures outcome.Some? ==> KeyOf(src.name) !in markers
      ensures outcome.Some? && env.purgeAt <= markAt + TempSeenTtl ==> outcome.value != NotMarked
      ensures outcome.Some? ==>
                MoveSpec(old(fs.entries), fs.entries, Marked(old(markers), src, dst, purgeAt, markAt),
                         markers, dst, env, outcome.value)
    {
      if isDirectory {
        return None;
      }
      var srcExt := ExtOf(src.name);
      var dstExt := ExtOf(dst.name);
      if srcExt in TempExts && dstExt !in TempExts {
        MarkedFinalName(markers, src, dst, isDirectory, purgeAt, markAt);
        if env.purgeAt <= markAt + TempSeenTtl {
          FreshMarkSurvives(markers, src, dst, isDirectory, purgeAt, markAt, env.purgeAt);
        }
        KeyExtension(dst.name);
        var purged := PurgeOld(markers, purgeAt);
        markers := purged[KeyOf(dst.name) := markAt];
        markers := markers - {KeyOf(src.name)};
        downloaded := downloaded + {KeyOf(dst.name)};
        var result, kept := MaybeMove(fs, markers, dst, env);
        markers := kept;
        return Some(result);
      }
      return None;
    }
  }
}
