/**
  One emitted folder: its tracks in the database against the audio files found in it.
 */
module FolderFiles {
  import opened Prelude
  import opened IgnorePatterns

  datatype Track = Track(id: string, path: Path, updatedAt: int, missing: bool)

  /** A listed audio file; its info can turn out to be unreadable. */
  datatype AudioFile = AudioFile(infoOk: bool, modTime: int)

  /** The names of the audio files in the folder. */
  type Listing = map<string, AudioFile>

  predicate OnDisk(folder: Path, audio: Listing, p: Path) {
    |p| > 0 && p == folder + [p[|p| - 1]] && p[|p| - 1] in audio
  }

  /** The row kept for a path: the cursor's last one. */
  function RowsByPath(rows: seq<Track>): (m: map<Path, Track>)
    ensures forall p :: p in m ==> m[p] in rows && m[p].path == p
    ensures forall r :: r in rows ==> r.path in m
  {
    if rows == [] then map[]
    else
      var last := rows[|rows| - 1];
      RowsByPath(rows[..|rows| - 1])[last.path := last]
  }

  /** For each path the last row of the cursor. */
  lemma {:induction false} RowIsLast(rows: seq<Track>, p: Path) returns (i: nat)
    requires p in RowsByPath(rows)
    ensures i < |rows| && rows[i] == RowsByPath(rows)[p] && rows[i].path == p && NoneAfter(rows, p, i)
  {
    i := |rows| - 1;
    if rows[i].path != p {
      var n := i;
      i := RowIsLast(rows[..n], p);
      NoneAfterMore(rows, p, i);
    }
  }

  lemma NoneAfterMore(rows: seq<Track>, p: Path, i: nat)
    requires rows != [] && rows[|rows| - 1].path != p && NoneAfter(rows[..|rows| - 1], p, i)
    ensures NoneAfter(rows, p, i)
  {
    var front := rows[..|rows| - 1];
    assert forall j :: 0 <= j < |front| ==> front[j] == rows[j];
  }

  predicate NoneAfter(rows: seq<Track>, p: Path, i: nat) { forall j :: i < j < |rows| ==> rows[j].path != p }

  /** The row is older than the file, or its file was thought missing. */
  predicate Stale(t: Track, f: AudioFile) { f.modTime > t.updatedAt || t.missing }

  /** Nothing has to be imported for this file. */
  predicate Current(fullScan: bool, known: map<Path, Track>, p: Path, f: AudioFile) {
    !fullScan && p in known && !Stale(known[p], f)
  }

  /** The info of the file is needed and cannot be read. */
  predicate Unreadable(fullScan: bool, known: map<Path, Track>, p: Path, f: AudioFile) {
    !fullScan && p in known && !f.infoOk
  }

  /** The rows off disk are told apart by their paths. */
  ghost predicate DistinctOffDisk(folder: Path, rows: seq<Track>, audio: Listing) {
    forall a, b :: a in rows && b in rows && a.path == b.path && !OnDisk(folder, audio, a.path) ==> a == b
  }

  method LoadTracks(rows: seq<Track>) returns (known: map<Path, Track>)
    ensures known == RowsByPath(rows)
  {
    known := map[];
    for i := 0 to |rows|
      invariant known == RowsByPath(rows[..i])
    {
      assert rows[..i + 1][..i] == rows[..i];
      known := known[rows[i].path := rows[i]];
    }
    assert rows[..|rows|] == rows;
  }

  type Imports = map<Path, Option<Track>>

  predicate Done(folder: Path, names: set<string>, p: Path) { exists n :: n in names && p == folder + [n] }

  ghost predicate Readable(fullScan: bool, folder: Path, known: map<Path, Track>, audio: Listing, names: set<string>) {
    forall n :: n in names && n in audio ==> !Unreadable(fullScan, known, folder + [n], audio[n])
  }

  /** Of the named files, the imports are those not current, each with its row if it has one. */
  ghost predicate ImportsOf(fullScan: bool, folder: Path, known: map<Path, Track>, audio: Listing, names: set<string>,
                            imports: Imports) {
    && (forall n :: n in names && n in audio ==>
          (folder + [n] in imports <==> !Current(fullScan, known, folder + [n], audio[n])))
    && (forall p :: p in imports ==> Done(folder, names, p) && imports[p] == RowAt(known, p))
  }

  function RowAt(known: map<Path, Track>, p: Path): Option<Track> { if p in known then Some(known[p]) else None }

  /** The rows, one for each path, whose file is not in the folder. */
  ghost predicate MissingOf(folder: Path, known: map<Path, Track>, audio: Listing, missing: set<Track>) {
    forall t :: t in missing <==> (t.path in known && known[t.path] == t && !OnDisk(folder, audio, t.path))
  }

  /**
    Selects what to import and what is missing, whatever order the files are met in.  It gives up
    exactly when some file already in the database has unreadable info on a quick scan.
   */
  method ProcessFolder(folder: Path, rows: seq<Track>, audio: Listing, fullScan: bool)
    returns (ok: bool, toImport: Imports, missing: set<Track>)
    ensures ok <==> Readable(fullScan, folder, RowsByPath(rows), audio, audio.Keys)
    ensures ok ==> ImportsOf(fullScan, folder, RowsByPath(rows), audio, audio.Keys, toImport)
    ensures ok ==> MissingOf(folder, RowsByPath(rows), audio, missing)
    ensures !ok ==> toImport == map[] && missing == {}
    ensures ok ==> forall n :: n in audio ==>
              var p := folder + [n];
              p in toImport <==>
              p !in RowsByPath(rows) || fullScan || audio[n].modTime > RowsByPath(rows)[p].updatedAt || RowsByPath(rows)[p].missing
    ensures !ok <==> !fullScan && exists n :: n in audio && folder + [n] in RowsByPath(rows) && !audio[n].infoOk
  {
    hide RowsByPath, ImportsOf, Readable, MissingOf, Stale;
    SelectionIs(fullScan, folder, RowsByPath(rows), audio);
    var known := LoadTracks(rows);
    var dbTracks := known;
    var todo := audio.Keys;
    toImport := map[];
    ghost var done: set<string> := {};
    NothingDone(fullScan, folder, known, audio);
    while todo != {}
      invariant todo <= audio.Keys && done == audio.Keys - todo
      invariant Remaining(folder, known, done, dbTracks)
      invariant Readable(fullScan, folder, known, audio, done)
      invariant ImportsOf(fullScan, folder, known, audio, done, toImport)
      decreases todo
    {
      var n :| n in todo;
      var p, f := folder + [n], audio[n];
      NotDoneYet(folder, done, n);
      NextFile(fullScan, folder, known, audio, done, n, toImport);
      if p !in dbTracks || fullScan {
        toImport := toImport[p := if p in dbTracks then Some(dbTracks[p]) else None];
      } else {
        if !f.infoOk { return false, map[], {}; }
        if Stale(dbTracks[p], f) { toImport := toImport[p := Some(dbTracks[p])]; }
      }
      RemainingStep(folder, known, done, n, dbTracks);
      dbTracks := dbTracks - {p};
      todo := todo - {n};
      done := done + {n};
    }
    assert done == audio.Keys;
    missing := dbTracks.Values;
    RestIsMissing(folder, rows, audio, dbTracks);
    ok := true;
  }

  /** Newer than its row, thought missing, unknown, or all of them on a full scan. */
  lemma SelectionIs(fullScan: bool, folder: Path, known: map<Path, Track>, audio: Listing)
    ensures forall imports, n :: ImportsOf(fullScan, folder, known, audio, audio.Keys, imports) && n in audio ==>
              var p := folder + [n];
              p in imports <==> p !in known || fullScan || audio[n].modTime > known[p].updatedAt || known[p].missing
    ensures !Readable(fullScan, folder, known, audio, audio.Keys) <==>
            !fullScan && exists n :: n in audio && folder + [n] in known && !audio[n].infoOk
  {
    if !Readable(fullScan, folder, known, audio, audio.Keys) {
      var n :| n in audio && Unreadable(fullScan, known, folder + [n], audio[n]);
    }
  }

  ghost predicate Remaining(folder: Path, known: map<Path, Track>, done: set<string>, dbTracks: map<Path, Track>) {
    forall p :: (p in dbTracks <==> p in known && !Done(folder, done, p)) && (p in dbTracks ==> dbTracks[p] == known[p])
  }

  lemma NothingDone(fullScan: bool, folder: Path, known: map<Path, Track>, audio: Listing)
    ensures Remaining(folder, known, {}, known) && Readable(fullScan, folder, known, audio, {})
    ensures ImportsOf(fullScan, folder, known, audio, {}, map[])
  {
  }

  lemma NotDoneYet(folder: Path, names: set<string>, n: string)
    requires n !in names
    ensures !Done(folder, names, folder + [n])
  {
    forall m | m in names ensures folder + [n] != folder + [m] {
      assert (folder + [n])[|folder|] == n && (folder + [m])[|folder|] == m;
    }
  }

  lemma RemainingStep(folder: Path, known: map<Path, Track>, done: set<string>, n: string, dbTracks: map<Path, Track>)
    requires Remaining(folder, known, done, dbTracks)
    ensures Remaining(folder, known, done + {n}, dbTracks - {folder + [n]})
  {
    forall p ensures Done(folder, done + {n}, p) <==> Done(folder, done, p) || p == folder + [n] {
      if p == folder + [n] { assert n in done + {n}; }
    }
  }

  /** What each possible decision about the next file leads to. */
  lemma NextFile(fullScan: bool, folder: Path, known: map<Path, Track>, audio: Listing, done: set<string>, n: string,
                 imports: Imports)
    requires n in audio && n !in done && done <= audio.Keys
    requires Readable(fullScan, folder, known, audio, done) && ImportsOf(fullScan, folder, known, audio, done, imports)
    ensures var p := folder + [n];
            && (Unreadable(fullScan, known, p, audio[n]) ==> !Readable(fullScan, folder, known, audio, audio.Keys))
            && (!Unreadable(fullScan, known, p, audio[n]) ==> Readable(fullScan, folder, known, audio, done + {n}))
            && ImportsOf(fullScan, folder, known, audio, done + {n},
                         if Current(fullScan, known, p, audio[n]) then imports else imports[p := RowAt(known, p)])
  {
    var p := folder + [n];
    NotDoneYet(folder, done, n);
    forall m | m in done ensures folder + [m] != p && Done(folder, done + {n}, folder + [m]) {
      assert p[|folder|] == n && (folder + [m])[|folder|] == m;
      assert m in done + {n};
    }
    assert Done(folder, done + {n}, p) by { assert n in done + {n}; }
  }

  lemma RestIsMissing(folder: Path, rows: seq<Track>, audio: Listing, rest: map<Path, Track>)
    requires Remaining(folder, RowsByPath(rows), audio.Keys, rest)
    ensures MissingOf(folder, RowsByPath(rows), audio, rest.Values)
  {
    forall p ensures Done(folder, audio.Keys, p) <==> OnDisk(folder, audio, p) {
      if OnDisk(folder, audio, p) { assert p[|p| - 1] in audio.Keys; }
      if n :| n in audio.Keys && p == folder + [n] { assert p[|p| - 1] == n; }
    }
  }

  /**
    Every row is on disk or missing, never both, at least by its path; each row itself is accounted
    for exactly when no two rows off disk share a path.
   */
  lemma EveryRowAccountedIff(folder: Path, rows: seq<Track>, audio: Listing, missing: set<Track>)
    requires MissingOf(folder, RowsByPath(rows), audio, missing)
    ensures forall t :: t in missing ==> t in rows && !OnDisk(folder, audio, t.path)
    ensures forall r :: r in rows && !OnDisk(folder, audio, r.path) ==> exists t :: t in missing && t.path == r.path
    ensures (forall r :: r in rows && !OnDisk(folder, audio, r.path) ==> r in missing) <==> DistinctOffDisk(folder, rows, audio)
  {
    var known := RowsByPath(rows);
    forall r | r in rows && !OnDisk(folder, audio, r.path) ensures exists t :: t in missing && t.path == r.path {
      assert known[r.path] in missing;
    }
  }
}
