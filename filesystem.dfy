/** The file system as the core sees it: which paths exist with what size, what each archive
    written by the core holds, and which paths refuse to be deleted. */
module FileSystem {

  type Path = string

  /** One member of an archive: the file it is read from and the name it is stored under. */
  datatype ZipEntry = ZipEntry(path: Path, name: string)

  /** The paths `fs.unlinkSync` removes when each of `paths` is deleted in turn, skipping empty
      paths and paths that do not exist, and going on past a path whose deletion throws. */
  function Unlinked(paths: seq<Path>, files: map<Path, nat>, locked: set<Path>): set<Path> {
    set p | p in paths && p != "" && p in files && p !in locked
  }

  class Disk {
    /** The files that exist, with their sizes in bytes (`fs.existsSync`, `fs.statSync`). */
    var files: map<Path, nat>
    /** The members of each archive file the core wrote. */
    var archives: map<Path, seq<ZipEntry>>
    /** Paths whose `fs.unlinkSync` throws (permissions, a busy file). */
    const locked: set<Path>

    constructor (files: map<Path, nat>, locked: set<Path>)
      ensures this.files == files && this.locked == locked && archives == map[]
    {
      this.files := files;
      this.locked := locked;
      archives := map[];
    }

    /** `fs.existsSync(p)`. */
    method Exists(p: Path) returns (b: bool)
      ensures b <==> p in files
    {
      b := p in files;
    }

    /** `fs.unlinkSync(p)`: `ok` is false where it would throw (a missing or locked path), and
        then nothing changes. */
    method Unlink(p: Path) returns (ok: bool)
      modifies this
      ensures ok <==> p in old(files) && p !in locked
      ensures files == if ok then old(files) - {p} else old(files)
      ensures archives == if ok then old(archives) - {p} else old(archives)
    {
      ok := p in files && p !in locked;
      if ok {
        files := files - {p};
        archives := archives - {p};
      }
    }

    /** Writes a file of `size` bytes at `p`, replacing whatever was there (an image encoder's
        `toFile`). */
    method WriteFile(p: Path, size: nat)
      modifies this
      ensures files == old(files)[p := size]
      ensures archives == old(archives) - {p}
    {
      files := files[p := size];
      archives := archives - {p};
    }

    /** Closes an archive of `size` bytes holding `entries` at `p`. */
    method WriteArchive(p: Path, entries: seq<ZipEntry>, size: nat)
      modifies this
      ensures files == old(files)[p := size]
      ensures archives == old(archives)[p := entries]
    {
      files := files[p := size];
      archives := archives[p := entries];
    }

    /** A loop of `fs.existsSync` checks and `fs.unlinkSync` calls over `paths`, each call in
        its own try block, as the cleanup code of the job store does. */
    method UnlinkEach(paths: seq<Path>)
      modifies this
      ensures files == old(files) - Unlinked(paths, old(files), locked)
      ensures archives == old(archives) - Unlinked(paths, old(files), locked)
    {
      var i := 0;
      while i < |paths|
        invariant 0 <= i <= |paths|
        invariant files == old(files) - Unlinked(paths[..i], old(files), locked)
        invariant archives == old(archives) - Unlinked(paths[..i], old(files), locked)
      {
        var p := paths[i];
        assert paths[..i + 1] == paths[..i] + [p];
        if p != "" {
          var present := Exists(p);
          if present {
            var _ := Unlink(p);
          }
        }
        i := i + 1;
      }
      assert paths[..i] == paths;
    }
  }

  /** Deleting the paths of `a` and then those of `b` deletes what deleting `a + b` does. */
  lemma UnlinkedConcat(a: seq<Path>, b: seq<Path>, files: map<Path, nat>, locked: set<Path>)
    ensures var first := Unlinked(a, files, locked);
            first + Unlinked(b, files - first, locked) == Unlinked(a + b, files, locked)
  {
  }
}
