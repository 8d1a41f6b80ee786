/**
 * The rename manager (`RenameManager`): a comic file renamed after its
 * metadata, in its own directory, with a numbered suffix when the name is
 * taken, an optional backup while the rename happens, and a dry-run mode
 * that changes nothing.
 *
 * The file system is a `Disk`: the set of the paths of its files, a path
 * being the text of its directory (ending in `/`, or empty) followed by the
 * file's name. Whether copying the backup or renaming fails, and the text of
 * that failure, are given as `Faults`.
 */
module RenameManager {
  import opened Wrappers
  import opened Text
  import opened Values
  import opened Renaming

  class Disk {
    var files: set<string>

    constructor(files: set<string>)
      ensures this.files == files
    {
      this.files := files;
    }
  }

  /** What goes wrong with one file: the backup copy, the rename, or neither. */
  datatype Faults = Faults(copyError: Option<string>, renameError: Option<string>)

  /** `(success, old_path, new_path)`; on failure the third item is the error. */
  type Reply = (bool, string, string)

  // ---------------------------------------------------------------- paths

  /** The directory part of a path, with its final `/`; empty for a bare name. */
  function Dir(p: string): (d: string)
    ensures d <= p
    ensures d == [] || d[|d| - 1] == '/'
  {
    p[..RFind(p, '/') + 1]
  }

  /** The name part of a path: what follows the last `/`. */
  function Name(p: string): (n: string)
    ensures |Dir(p)| + |n| == |p|
    ensures n == p[|Dir(p)|..]
  {
    p[RFind(p, '/') + 1..]
  }

  /** A name without a `/` put in a directory is found there again. */
  lemma DirOfChild(d: string, n: string)
    requires d == [] || d[|d| - 1] == '/'
    requires '/' !in n
    ensures Dir(d + n) == d && Name(d + n) == n
  {
    var p := d + n;
    forall k | |d| <= k < |p|
      ensures p[k] != '/'
    {
      assert p[k] == n[k - |d|];
    }
    if d != [] {
      assert p[|d| - 1] == '/';
    }
    assert RFind(p, '/') == |d| - 1;
    assert p[..|d|] == d;
  }

  /** `.backup_<name>`, next to the file. */
  function BackupPath(p: string): (b: string)
    ensures b != p
  {
    Dir(p) + ".backup_" + Name(p)
  }

  // ---------------------------------------------------------------- the new name

  /** The replacement `sanitize` uses by default. */
  const DefaultReplacement: string := "_"

  /**
   * What `generate_new_filename` returns: the template's variables
   * substituted, the extension of the current file appended and the whole
   * sanitized; `ValueError` for an invalid template.
   */
  function NewFilename(template: string, metadata: map<string, Cell>, currentPath: string, pyStr: Cell -> string)
    : (r: Outcome<string>)
    ensures r.Raised? <==> !AllValid(Tokens(template))
    ensures r.Raised? ==> r.error == "Template invalide: " + template
    ensures r.Returned? ==> NoInvalidChars(r.value) && SingleSpaced(r.value) && '/' !in r.value
  {
    if !Validate(template) then Raised("Template invalide: " + template)
    else
      var named := Substituted(template, metadata, pyStr) + SplitExt(currentPath).1;
      SanitizeNoInvalid(named, DefaultReplacement);
      SanitizeSingleSpaced(named, DefaultReplacement);
      Returned(Sanitize(named, DefaultReplacement))
  }

  /** A template without variables gives the template itself, stripped and sanitized, with the file's extension. */
  lemma PlainNewFilename(template: string, metadata: map<string, Cell>, currentPath: string, pyStr: Cell -> string)
    requires '%' !in template
    ensures NewFilename(template, metadata, currentPath, pyStr)
            == Returned(Sanitize(Strip(template) + SplitExt(currentPath).1, DefaultReplacement))
  {
    PlainTemplateValid(template);
    PlainTemplateSubstituted(template, metadata, pyStr);
  }

  // ---------------------------------------------------------------- the numbered suffix

  /** `f"{name} ({counter}){ext}"`. */
  function Numbered(name: string, n: nat, ext: string): string {
    name + " (" + NatToStr(n) + ")" + ext
  }

  /** Different counters give different names. */
  lemma NumberedInjective(name: string, ext: string, m: nat, n: nat)
    requires Numbered(name, m, ext) == Numbered(name, n, ext)
    ensures m == n
  {
    var dm := NatToStr(m);
    var dn := NatToStr(n);
    var s := Numbered(name, m, ext);
    assert |dm| == |dn|;
    assert s[|name| + 2..|name| + 2 + |dm|] == dm;
    assert Numbered(name, n, ext)[|name| + 2..|name| + 2 + |dn|] == dn;
    NatToStrInjective(m, n);
  }

  /** The path with counter `n` in directory `dir`. */
  function Candidate(dir: string, name: string, ext: string, n: nat): string {
    dir + Numbered(name, n, ext)
  }

  /** The candidates with the counters `1 .. c-1`. */
  function Tried(dir: string, name: string, ext: string, c: nat): (t: set<string>)
    ensures forall m :: 1 <= m < c ==> Candidate(dir, name, ext, m) in t
  {
    if c <= 1 then {} else Tried(dir, name, ext, c - 1) + {Candidate(dir, name, ext, c - 1)}
  }

  /** Candidate `c` is not among those tried before it. */
  lemma NotTried(dir: string, name: string, ext: string, c: nat)
    ensures Candidate(dir, name, ext, c) !in Tried(dir, name, ext, c)
  {
    NotTriedBefore(dir, name, ext, c, c);
  }

  lemma {:induction false} NotTriedBefore(dir: string, name: string, ext: string, c: nat, n: nat)
    requires c <= n
    ensures Candidate(dir, name, ext, n) !in Tried(dir, name, ext, c)
  {
    if c > 1 {
      NotTriedBefore(dir, name, ext, c - 1, n);
      if Candidate(dir, name, ext, n) == Candidate(dir, name, ext, c - 1) {
        assert Numbered(name, n, ext) == Candidate(dir, name, ext, n)[|dir|..];
        NumberedInjective(name, ext, n, c - 1);
      }
    }
  }

  /** Counter `c` is taken, so fewer of the files remain untried. */
  lemma TriedGrows(files: set<string>, dir: string, name: string, ext: string, c: nat)
    requires c >= 1 && Candidate(dir, name, ext, c) in files
    ensures |files - Tried(dir, name, ext, c + 1)| < |files - Tried(dir, name, ext, c)|
  {
    var x := Candidate(dir, name, ext, c);
    NotTried(dir, name, ext, c);
    assert files - Tried(dir, name, ext, c) == (files - Tried(dir, name, ext, c + 1)) + {x};
  }

  /** The smallest counter from `c` on whose candidate is not a file. */
  function FirstFree(files: set<string>, dir: string, name: string, ext: string, c: nat): (k: nat)
    requires c >= 1
    ensures k >= c
    ensures Candidate(dir, name, ext, k) !in files
    ensures forall m :: c <= m < k ==> Candidate(dir, name, ext, m) in files
    decreases |files - Tried(dir, name, ext, c)|
  {
    if Candidate(dir, name, ext, c) !in files then c
    else
      TriedGrows(files, dir, name, ext, c);
      FirstFree(files, dir, name, ext, c + 1)
  }

  /** The first free counter is the one before which every candidate is taken. */
  lemma {:induction false} FirstFreeIs(files: set<string>, dir: string, name: string, ext: string, c: nat, k: nat)
    requires 1 <= c <= k
    requires Candidate(dir, name, ext, k) !in files
    requires forall m :: c <= m < k ==> Candidate(dir, name, ext, m) in files
    ensures FirstFree(files, dir, name, ext, c) == k
    decreases k - c
  {
    if c < k {
      FirstFreeIs(files, dir, name, ext, c + 1, k);
    }
  }

  // ---------------------------------------------------------------- renaming one file

  /** Where a taken target moves to: the name with the first free counter. */
  function FreeTarget(files: set<string>, dir: string, newName: string): string {
    var (name, ext) := SplitExt(newName);
    Candidate(dir, name, ext, FirstFree(files, dir, name, ext, 1))
  }

  /** Where the file goes outside a dry run: the new name in its directory, numbered when taken. */
  function Destination(files: set<string>, filepath: string, newName: string): (dest: string)
    ensures dest !in files
    ensures '/' !in newName ==> Dir(dest) == Dir(filepath)
  {
    var target := Dir(filepath) + newName;
    SameDirectory(files, filepath, newName);
    if target in files then FreeTarget(files, Dir(filepath), newName) else target
  }

  /**
   * The file renamed once its new name is known: nothing happens when the
   * name does not change or in a dry run (where a taken name is not even
   * numbered); otherwise the backup, when enabled, is made before the rename
   * and removed after it, whether the rename worked or not.
   */
  function Renamed(files: set<string>, backupEnabled: bool, dryRun: bool, filepath: string, newName: string, faults: Faults)
    : (out: (Outcome<Reply>, set<string>))
    ensures out.0.Returned? && out.0.value.1 == filepath
    ensures dryRun ==> out.1 == files
  {
    var dir := Dir(filepath);
    var target := dir + newName;
    if target == filepath then (Returned((true, filepath, filepath)), files)
    else if dryRun then (Returned((true, filepath, target)), files)
    else Committed(files, backupEnabled, filepath, Destination(files, filepath, newName), faults)
  }

  /**
   * The file moved to `dest`: the backup, when enabled, is made before the
   * rename and removed after it, and restored onto the file when the rename
   * fails.
   */
  function Committed(files: set<string>, backupEnabled: bool, filepath: string, dest: string, faults: Faults)
    : (out: (Outcome<Reply>, set<string>))
    ensures out.0.Returned? && out.0.value.1 == filepath
    ensures out.0.value.0 ==> out.0.value.2 == dest
  {
    if backupEnabled && faults.copyError.Some? then
      (Returned((false, filepath, "Erreur backup: " + faults.copyError.value)), files)
    else
      var backup := if backupEnabled then {BackupPath(filepath)} else {};
      match faults.renameError
      case Some(e) =>
        var restored := if backupEnabled then {filepath} else {};
        (Returned((false, filepath, "Erreur: " + e)), (files + backup + restored) - backup)
      case None =>
        (Returned((true, filepath, dest)), ((files + backup) - {filepath} + {dest}) - backup)
  }

  /**
   * `rename_file`: the reply, or the exception raised, with the files after
   * the call. A missing file and an invalid template raise.
   */
  function RenameOutcome(files: set<string>, backupEnabled: bool, dryRun: bool, filepath: string, template: string,
                         metadata: map<string, Cell>, pyStr: Cell -> string, faults: Faults)
    : (out: (Outcome<Reply>, set<string>))
    ensures out.0.Raised? <==> filepath !in files || !AllValid(Tokens(template))
    ensures out.0.Raised? ==> out.1 == files
    ensures out.0.Returned? ==> out.0.value.1 == filepath
    ensures dryRun ==> out.1 == files
  {
    if filepath !in files then (Raised("Fichier introuvable: " + filepath), files)
    else match NewFilename(template, metadata, filepath, pyStr)
      case Raised(e) => (Raised(e), files)
      case Returned(newName) => Renamed(files, backupEnabled, dryRun, filepath, newName, faults)
  }

  /** The renamed file lands in the directory it came from. */
  lemma SameDirectory(files: set<string>, filepath: string, newName: string)
    ensures '/' !in newName ==> Dir(Dir(filepath) + newName) == Dir(filepath)
    ensures '/' !in newName ==> Dir(FreeTarget(files, Dir(filepath), newName)) == Dir(filepath)
  {
    if '/' !in newName {
      var dir := Dir(filepath);
      DirOfChild(dir, newName);
      var (name, ext) := SplitExt(newName);
      assert newName == name + ext;
      var k := FirstFree(files, dir, name, ext, 1);
      NumberedNoSlash(name, k, ext);
      DirOfChild(dir, Numbered(name, k, ext));
    }
  }

  /** A numbered name has a `/` only where its name or extension has one. */
  lemma NumberedNoSlash(name: string, n: nat, ext: string)
    requires '/' !in name && '/' !in ext
    ensures '/' !in Numbered(name, n, ext)
  {
    var d := NatToStr(n);
    var s := Numbered(name, n, ext);
    forall i | 0 <= i < |s|
      ensures s[i] != '/'
    {
      if i < |name| {
        assert s[i] == name[i];
      } else if |name| + 2 <= i < |name| + 2 + |d| {
        assert s[i] == d[i - |name| - 2];
      } else if i >= |name| + 3 + |d| {
        assert s[i] == ext[i - |name| - 3 - |d|];
      }
    }
  }

  /**
   * A rename that reports success outside a dry run moves the file to a
   * path that was free, in the same directory, and the number of files is
   * unchanged: nothing is overwritten and nothing is lost. The file would
   * only be lost if it were renamed to the name of its own backup, which is
   * then deleted.
   */
  lemma RenameNeverOverwrites(files: set<string>, backupEnabled: bool, filepath: string, newName: string, faults: Faults)
    requires filepath in files && '/' !in newName
    requires Renamed(files, backupEnabled, false, filepath, newName, faults).0.value.0
    requires Renamed(files, backupEnabled, false, filepath, newName, faults).0.value.2 != filepath
    requires backupEnabled ==> BackupPath(filepath) !in files
                               && Renamed(files, backupEnabled, false, filepath, newName, faults).0.value.2 != BackupPath(filepath)
    ensures Renamed(files, backupEnabled, false, filepath, newName, faults).0.value.2 == Destination(files, filepath, newName)
    ensures Renamed(files, backupEnabled, false, filepath, newName, faults).1
            == files - {filepath} + {Destination(files, filepath, newName)}
    ensures |Renamed(files, backupEnabled, false, filepath, newName, faults).1| == |files|
  {
    var dest := Destination(files, filepath, newName);
    var after := files - {filepath};
    assert |after| == |files| - 1;
    assert |after + {dest}| == |after| + 1;
  }

  class Manager {
    const backupEnabled: bool
    const dryRun: bool

    constructor(backupEnabled: bool, dryRun: bool)
      ensures this.backupEnabled == backupEnabled && this.dryRun == dryRun
    {
      this.backupEnabled := backupEnabled;
      this.dryRun := dryRun;
    }

    /** `generate_new_filename`. */
    method GenerateNewFilename(template: string, metadata: map<string, Cell>, currentPath: string, pyStr: Cell -> string)
      returns (r: Outcome<string>)
      ensures r == NewFilename(template, metadata, currentPath, pyStr)
      ensures r.Raised? <==> !AllValid(Tokens(template))
      ensures r.Returned? ==> NoInvalidChars(r.value) && '/' !in r.value
    {
      if !Validate(template) {
        return Raised("Template invalide: " + template);
      }
      var newName := Substitute(template, metadata, pyStr);
      var (_, ext) := SplitExt(currentPath);
      newName := newName + ext;
      newName := Sanitize(newName, DefaultReplacement);
      r := Returned(newName);
    }

    /** `rename_file`, on the files of `disk`. */
    method RenameFile(disk: Disk, filepath: string, template: string, metadata: map<string, Cell>,
                      pyStr: Cell -> string, faults: Faults)
      returns (r: Outcome<Reply>)
      modifies disk
      ensures (r, disk.files)
              == RenameOutcome(old(disk.files), backupEnabled, dryRun, filepath, template, metadata, pyStr, faults)
    {
      if filepath !in disk.files {
        return Raised("Fichier introuvable: " + filepath);
      }
      var generated := GenerateNewFilename(template, metadata, filepath, pyStr);
      if generated.Raised? {
        return Raised(generated.error);
      }
      r := Move(disk, filepath, generated.value, faults);
    }

    /** The rest of `rename_file` once the new name is known. */
    method Move(disk: Disk, filepath: string, newFilename: string, faults: Faults) returns (r: Outcome<Reply>)
      modifies disk
      ensures (r, disk.files) == Renamed(old(disk.files), backupEnabled, dryRun, filepath, newFilename, faults)
    {
      var dir := Dir(filepath);
      var newFilepath := dir + newFilename;
      if filepath == newFilepath {
        return Returned((true, filepath, newFilepath));
      }
      if newFilepath in disk.files && !dryRun {
        newFilepath := NextFree(disk, dir, newFilename);
      }
      if dryRun {
        return Returned((true, filepath, newFilepath));
      }
      r := Commit(disk, filepath, newFilepath, faults);
    }

    /** The backup, the rename and the clean-up of `rename_file`. */
    method Commit(disk: Disk, filepath: string, dest: string, faults: Faults) returns (r: Outcome<Reply>)
      modifies disk
      ensures (r, disk.files) == Committed(old(disk.files), backupEnabled, filepath, dest, faults)
    {
      var backupPath := BackupPath(filepath);
      if backupEnabled {
        if faults.copyError.Some? {
          return Returned((false, filepath, "Erreur backup: " + faults.copyError.value));
        }
        disk.files := disk.files + {backupPath};
      }
      if faults.renameError.Some? {
        if backupEnabled && backupPath in disk.files {
          disk.files := disk.files + {filepath};
          disk.files := disk.files - {backupPath};
        }
        return Returned((false, filepath, "Erreur: " + faults.renameError.value));
      }
      disk.files := disk.files - {filepath} + {dest};
      if backupEnabled {
        disk.files := disk.files - {backupPath};
      } else {
        assert old(disk.files) + {} == old(disk.files) && disk.files - {} == disk.files;
      }
      return Returned((true, filepath, dest));
    }

    /** `rename_batch`: one reply per file, in order, an exception turned into a failed reply. */
    method RenameBatch(disk: Disk, files: seq<(string, map<string, Cell>)>, template: string,
                       pyStr: Cell -> string, faults: nat -> Faults)
      returns (results: seq<Reply>)
      modifies disk
      ensures |results| == |files|
      ensures forall i :: 0 <= i < |files| ==> results[i].1 == files[i].0
      ensures (results, disk.files)
              == BatchOutcome(old(disk.files), backupEnabled, dryRun, files, template, pyStr, faults)
    {
      results := [];
      ghost var start := disk.files;
      for i := 0 to |files|
        invariant (results, disk.files) == BatchOutcome(start, backupEnabled, dryRun, files[..i], template, pyStr, faults)
      {
        BatchOutcomeNext(start, backupEnabled, dryRun, files, template, pyStr, faults, i);
        var (filepath, metadata) := files[i];
        var r := RenameFile(disk, filepath, template, metadata, pyStr, faults(i));
        results := results + [ReplyOf(r, filepath)];
      }
      assert files[..|files|] == files;
    }
  }

  /** The candidates taken from counter 1 on, ending at the first free one: the collision loop of `rename_file`. */
  method NextFree(disk: Disk, dir: string, newFilename: string) returns (path: string)
    requires dir + newFilename in disk.files
    ensures path == FreeTarget(disk.files, dir, newFilename)
  {
    var (name, ext) := SplitExt(newFilename);
    var counter: nat := 1;
    path := dir + newFilename;
    while path in disk.files
      invariant counter >= 1
      invariant counter == 1 ==> path == dir + newFilename
      invariant counter > 1 ==> path == Candidate(dir, name, ext, counter - 1)
      invariant forall m :: 1 <= m < counter - 1 ==> Candidate(dir, name, ext, m) in disk.files
      decreases |disk.files - Tried(dir, name, ext, counter - 1)|, if counter == 1 then 1 else 0
    {
      if counter > 1 {
        TriedGrows(disk.files, dir, name, ext, counter - 1);
      }
      path := dir + Numbered(name, counter, ext);
      counter := counter + 1;
    }
    FirstFreeIs(disk.files, dir, name, ext, 1, counter - 1);
  }

  /** The reply recorded for one file: an exception becomes a failed reply. */
  function ReplyOf(r: Outcome<Reply>, filepath: string): (reply: Reply)
    ensures r.Returned? ==> reply == r.value
    ensures r.Raised? ==> !reply.0 && reply.1 == filepath
  {
    match r
    case Returned(reply) => reply
    case Raised(e) => (false, filepath, "Erreur: " + e)
  }

  /** The replies of `rename_batch` and the files after it, each file renamed on the files the previous ones left. */
  function BatchOutcome(files: set<string>, backupEnabled: bool, dryRun: bool, batch: seq<(string, map<string, Cell>)>,
                        template: string, pyStr: Cell -> string, faults: nat -> Faults)
    : (out: (seq<Reply>, set<string>))
    ensures |out.0| == |batch|
    ensures forall i :: 0 <= i < |batch| ==> out.0[i].1 == batch[i].0
    decreases |batch|
  {
    if batch == [] then ([], files)
    else
      var n := |batch| - 1;
      var (before, now) := BatchOutcome(files, backupEnabled, dryRun, batch[..n], template, pyStr, faults);
      var (filepath, metadata) := batch[n];
      var (r, after) := RenameOutcome(now, backupEnabled, dryRun, filepath, template, metadata, pyStr, faults(n));
      (before + [ReplyOf(r, filepath)], after)
  }

  /** One file further along the batch. */
  lemma BatchOutcomeNext(files: set<string>, backupEnabled: bool, dryRun: bool, batch: seq<(string, map<string, Cell>)>,
                         template: string, pyStr: Cell -> string, faults: nat -> Faults, i: nat)
    requires i < |batch|
    ensures BatchOutcome(files, backupEnabled, dryRun, batch[..i + 1], template, pyStr, faults)
            == (BatchOutcome(files, backupEnabled, dryRun, batch[..i], template, pyStr, faults).0
                + [ReplyOf(RenameOutcome(BatchOutcome(files, backupEnabled, dryRun, batch[..i], template, pyStr, faults).1,
                                         backupEnabled, dryRun, batch[i].0, template, batch[i].1, pyStr, faults(i)).0, batch[i].0)],
                RenameOutcome(BatchOutcome(files, backupEnabled, dryRun, batch[..i], template, pyStr, faults).1,
                              backupEnabled, dryRun, batch[i].0, template, batch[i].1, pyStr, faults(i)).1)
  {
    assert batch[..i + 1][..i] == batch[..i];
  }

  /** A dry run of a whole batch leaves the files as they were. */
  lemma {:induction false} DryRunBatch(files: set<string>, backupEnabled: bool, batch: seq<(string, map<string, Cell>)>,
                                       template: string, pyStr: Cell -> string, faults: nat -> Faults)
    ensures BatchOutcome(files, backupEnabled, true, batch, template, pyStr, faults).1 == files
    decreases |batch|
  {
    if batch != [] {
      DryRunBatch(files, backupEnabled, batch[..|batch| - 1], template, pyStr, faults);
    }
  }
}
