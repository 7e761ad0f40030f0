# Download sorter: a verified model of the download-only mover

This project is a Dafny model of `download_sorter.py`. The program watches a
Downloads folder and moves only the files it believes are completed browser
downloads into five category folders: videos, documents, pictures, music and
archives.

A file counts as a download only if its name was marked by a rename from a
browser temp name (`.crdownload`, `.part`, `.tmp`) to a final name. A marker
lives for 10 minutes. A marked file is moved only after its size has stopped
changing for 2 seconds, and only if that happens within 3 minutes. It goes to
the first free name `name`, `name (1)`, `name (2)`, ... in its category folder.

Time is in integer milliseconds:

| constant | value |
|---|---|
| poll interval | 500 |
| quiet period | 2000 |
| maximum wait | 180000 |
| marker TTL | 600000 |

The modules follow the parts of the program:

- `Names` (`names.dfy`) covers file-name handling:
  - `str.lower()`, limited to ASCII;
  - `rfind`;
  - pathlib's `suffix` and `stem`;
  - the decimal rendering of the collision counter.
- `Rules` (`rules.dfy`) holds the extension sets and `route_destination`.
- `Markers` (`markers.dfy`) is the marker map and `purge_old`.
- `Namer` (`namer.dfy`) holds paths and `unique_dest`.
- `Stability` (`stability.dfy`) is `wait_until_stable`. Its loop reads a sequence of observations (`Probe`). Each observation is "missing", "size read failed", or a size at a clock tick.
- `Sorter` (`sorter.dfy`) holds `maybe_move`, the filesystem, and the `Handler` class.
  - The filesystem is a class whose `entries` map `shutil.move` updates in place.
  - `Handler` has the `markers` field. `on_created` and `on_moved` update it.
  - `MoveSpec` states what one `maybe_move` call does. Both `MaybeMove` and `Handler.OnMoved` are proved against it.
- `Scenarios` (`scenarios.dfy`) plays through two cases using only the contracts:
  - a browser download of `report.pdf` ends in the documents folder;
  - `photo.png` copied by hand is never marked. The program never runs `maybe_move` on a created file, and if `maybe_move` did run on it, it would stop at the marker gate.

How the Python code maps to Dafny:

- `purge_old` and `maybe_move` mutate the dictionary they are given. The model passes the dictionary in and returns the updated one. The handler stores the result back into its `markers` field.
- Clock readings are parameters:
  - `OnCreated`'s `now`;
  - `OnMoved`'s `purgeAt` and `markAt`;
  - the `MoveEnv` of a `maybe_move` call.
- The ghost set `Handler.downloaded` records every final name that a temp-to-final rename has marked. The handler's invariant `Provenance` says that every marker either names a temp artifact or is in that set.

## Model

| member | source | states |
|---|---|---|
| `Names.Suffix` | download_sorter.py:84 | the suffix is a tail of the name that starts with its only dot, is longer than the dot, and is shorter than the name |
| `Names.Stem` | download_sorter.py:83-84 | stem followed by suffix gives back the name |
| `Names.SplitJoin` | download_sorter.py:83-84 | a non-empty stem plus a dot-led, otherwise dot-free extension splits back into exactly that stem and suffix |
| `Names.SuffixOfLower` | download_sorter.py:116 | the suffix of the lower-cased name is the lower-cased suffix |
| `Names.RFindLower` | download_sorter.py:116 | lower-casing does not move the last dot |
| `Names.DecimalRoundTrip` | download_sorter.py:87 | the decimal rendering of the counter parses back to the counter |
| `Names.DecimalInjective` | download_sorter.py:87 | different counters render differently |
| `Rules.RouteDestination` | download_sorter.py:93-104 | the result agrees with an entry-by-entry routing table: routed exactly for the table's 13 extensions, to the table's category; every temp extension routes to none |
| `Rules.RouteBySet` | download_sorter.py:18-20 | image, audio and archive extensions route to pictures, music and archives, and only they do; `.mp4` is exactly videos, `.pdf` exactly documents |
| `Markers.PurgeOld` | download_sorter.py:40-44 | keeps exactly the keys stamped at or after `now - TTL`, with unchanged timestamps, and adds none |
| `Markers.MarkerLifetime` | download_sorter.py:40-44 | a marker stamped at `t` survives a purge at `now` iff `now <= t + TTL` |
| `Markers.PurgeTwice` | download_sorter.py:40-44 | purging at `t1` and then at a later `t2` equals purging once at `t2` |
| `Namer.CandidateInjective` | download_sorter.py:87 | distinct counters give distinct candidate paths |
| `Namer.UniqueDest` | download_sorter.py:77-90 | the result does not exist, lies in the destination folder, and is the plain name when free, else the candidate with the least free counter >= 1; the loop terminates for every finite set of existing paths |
| `Namer.UniqueDestDeterministic` | download_sorter.py:77-90 | two results satisfying the namer's specification are equal |
| `Namer.LeastFreeCandidate` | download_sorter.py:85-89 | a free candidate whose smaller counters are all taken is the namer's choice |
| `Namer.SecondAlternative` | download_sorter.py:85-90 | with the name and `(1)` taken and `(2)` free, the choice is `(2)` |
| `Namer.SecondCollision` | download_sorter.py:77-90 | with `report.pdf` and `report (1).pdf` present, the choice is `report (2).pdf` |
| `Stability.RunStart` | download_sorter.py:64-66 | the poll where the current size run began: all polls from it on saw the same size, and the one before it saw a different size |
| `Stability.WaitUntilStable` | download_sorter.py:47-74 | the deciding poll is the first that does not continue; the result is true iff that poll read a size unchanged for the quiet period; a missing file, a failed read, or the timeout gives false; stability is tested before the timeout; the deciding poll has index at most 360, so at most 361 polls run |
| `Stability.VerdictUnique` | download_sorter.py:53-74 | there is only one deciding poll |
| `Stability.Unsettled` | download_sorter.py:54-72 | a deciding poll without a stable size means the wait answers false |
| `Stability.StableMeansQuiet` | download_sorter.py:68-69 | a true answer means every poll in a window of at least the quiet period saw the final size |
| `Stability.AlwaysGrowingNeverStable` | download_sorter.py:64-72 | a file whose size changes at every poll is never reported stable, and if its deciding poll read a size, the maximum wait has passed |
| `Sorter.KeyExtension` | download_sorter.py:116-129 | the suffix of a marker key is the file's lower-cased extension |
| `Sorter.MaybeMove` | download_sorter.py:107-151 | see below the table |
| `Sorter.MarkedFinalName` | download_sorter.py:197-202 | after a temp-to-final rename, the final key holds the fresh mark and the temp key holds none |
| `Sorter.FreshMarkSurvives` | download_sorter.py:198-205 | the fresh mark survives the purge inside `maybe_move` unless more than the TTL passes between marking and that purge |
| `Sorter.DownloadOnly` | download_sorter.py:126-133 | with the provenance invariant, a marked file that passes the temp gate got its name from a temp-to-final rename |
| `Sorter.Handler.constructor` | download_sorter.py:164-166 | the marker store starts empty |
| `Sorter.Handler.OnCreated` | download_sorter.py:168-182 | see below the table |
| `Sorter.Handler.OnMoved` | download_sorter.py:184-208 | see below the table |
| `Scenarios.SteadySettles` | download_sorter.py:53-74 | a size read unchanged every 500 ms from tick 1000 is decided at poll 4 (tick 3000), and it settles |
| `Scenarios.SteadyPdfMoves` | download_sorter.py:128-147 | a marked, steady `report.pdf` moves to the documents folder under its own name, and its marker is consumed |

`Sorter.MaybeMove` proves `MoveSpec`, which states:

- The gates run in order, each outcome given as "if and only if":
  - missing or not a regular file gives `Vanished`;
  - a temp extension gives `TempArtifact`;
  - an unrouted extension gives `Unmanaged`;
  - no marker after the purge gives `NotMarked`;
  - not stable gives `NotStable`;
  - an exception in the move step gives `Failed`;
  - otherwise the file is `Moved`.
- The first three outcomes leave the markers as they were. The next three leave them purged.
- Only `Moved` changes the filesystem. It moves the file to a previously absent path in the routed folder, chosen by the namer. It removes exactly that file's key from the purged markers.
- A second call on a moved file is a no-op, because the old path is gone.

`Sorter.Handler.OnCreated`:

- Directory events change nothing.
- A temp file stores `name.lower() ↦ now`.
- Any other file leaves the markers unchanged. The method takes no filesystem, so it never moves anything.
- It keeps the provenance invariant.

`Sorter.Handler.OnMoved`:

- It acts iff the event is a file rename from a temp extension to a non-temp extension. Every other event changes nothing.
- When it acts, it does these steps in order:
  1. purges the markers;
  2. marks the final name;
  3. drops the temp name's marker;
  4. proves `MoveSpec` on the final path.
- The outcome is never `NotMarked` while the second purge comes within the TTL of the mark.
- It keeps the provenance invariant.

## Boundary behaviour

- **Marker expiry.** `purge_old` drops only timestamps strictly below `now - TTL` (download_sorter.py:42). A marker stamped at `T` therefore still survives a purge at exactly `T + TTL`. It is gone only after that (`Markers.MarkerLifetime`).
- **Timeout.** `wait_until_stable` gives up as soon as `t - start >= MAX_WAIT_SECONDS` (download_sorter.py:71). The comparison is not strict, and it runs after the stability test (download_sorter.py:68).
- **Gate order.** `maybe_move` checks the route, then the marker, then stability (download_sorter.py:122-138).
- **Created final files.** `on_created` takes no action for a file that does not have a temp extension, even if its name already has a marker (download_sorter.py:180-182).

## Left out

- The `watchdog` observer, `main`, the Ctrl+C loop, and the `print` and `traceback` output are left out. The log lines survive only as the `Outcome` tag.
- The real clock and `time.sleep` are left out. Clock readings are parameters. The stability loop reads a sequence of observations.
- `Stability.WaitUntilStable` requires `Paced`: poll `i` reads the clock at least `i` poll intervals after the start, and the sequence covers all 361 reachable polls. This follows from the 500 ms sleep only if `time.time()` never runs backwards and does not lag real time. A wall clock that jumps back, or one too coarse to advance by the full interval, is not modelled.
- `Sorter.MaybeMove` requires `Paced` for the same reason, as does `Sorter.Handler.OnMoved`.
- The second clock reading in `wait_until_stable`, the initial `last_change`, is modelled as `start`. Its value never matters: the first size read always differs from `-1`, so it overwrites `last_change`.
- `shutil.move` and `mkdir(parents=True, exist_ok=True)` are abstract:
  - A move removes the source path and adds the target as a regular file.
  - Folder creation is not modelled.
  - Copy-then-delete across devices is not modelled.
  - Any exception from creating the folder, probing names or moving is one flag (`moveFails`). The flag leaves the file in place, with the markers already purged.
  - A move that fails halfway is not modelled.
- `Sorter.MaybeMove` does not model two exception paths. Both have the same effect on state as an outcome the model does have, but a different outcome tag:
  - `path.exists()` or `path.is_file()` raising at download_sorter.py:113, for example with `PermissionError`. The program logs an error and leaves the markers untouched, like `Vanished`.
  - `path.exists()` raising inside `wait_until_stable` at download_sorter.py:54, outside that function's `try`. The program logs an error after the purge and leaves the file, like `NotStable`.
  - In both cases the model gives the outcome it would give if the call had returned normally.
- File sizes are not stored in the filesystem. The stability observations stand for them. The model assumes no other file changes while the wait runs.
- The destination folders under `Path.home()` are opaque values. The model does not capture that the archives folder lies inside Downloads.
- `str.lower()` is modelled for ASCII letters only. Unicode case mapping, including mappings that change the length, is not modelled.
- `suffix` and `stem` follow pathlib's rule up to Python 3.12. A dot that starts or ends the name does not begin a suffix. Later changes to that rule are not modelled.
- `purge_old` collects the expired keys in a list and pops them in list order. The model removes them from a set in any order. The result does not depend on the order.
- Events are handled one at a time, as in the program. Concurrency is not modelled.
