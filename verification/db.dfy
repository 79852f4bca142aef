/** The database of initialized sites: a directory `initialized` under the database root
    holding one empty marker file per site whose `init` recipe succeeded. The file system
    is the set of paths that exist; creating the parent directory and creating the file
    either succeed or fail, as told by the caller. */
module Db {
  import opened Wrappers
  import opened Strings
  import opened Paths
  import opened Config

  datatype Database = Database(root: string)

  /** The paths that exist. Directories are not tracked: only marker files are. */
  type FileSystem = set<string>

  /** The database in the configured db root, when there is one. */
  function DatabaseFromConfig(config: AlkaneConfig): (db: Option<Database>)
    ensures db.Some? <==> GetRoot(config, "db").Some?
    ensures db.Some? ==> db.value.root == GetRoot(config, "db").value
  {
    match GetRoot(config, "db")
    case None => None
    case Some(root) => Some(Database(root))
  }

  /** A database is always found, in the configured db root or else the built-in one. */
  lemma DatabaseAlwaysFound(config: AlkaneConfig)
    ensures DatabaseFromConfig(config).Some?
    ensures "db" !in config.roots ==> DatabaseFromConfig(config) == Some(Database("/var/db/alkane"))
  {
    BuiltInRootsResolve(config);
  }

  /** The directory the markers live in. */
  function MarkerDirectory(db: Database): (dir: string)
    ensures StartsWith(dir, db.root) && EndsWith(dir, "initialized")
    ensures |dir| > 0 && dir[|dir| - 1] != '/'
  {
    JoinPath(db.root, "initialized")
  }

  /** The marker of a site: `<root>/initialized/<site>`, joined as paths. */
  function InitializedPath(db: Database, siteName: string): (path: string)
    ensures EndsWith(path, siteName)
    ensures !IsAbsolute(siteName) ==> StartsWith(path, MarkerDirectory(db))
    ensures IsAbsolute(siteName) ==> path == siteName
  {
    JoinPath(MarkerDirectory(db), siteName)
  }

  /** The marker directory never ends with a separator, so a plain site name lands right
      inside it. */
  lemma InitializedPathLayout(db: Database, siteName: string)
    requires !IsAbsolute(siteName)
    ensures InitializedPath(db, siteName) == MarkerDirectory(db) + "/" + siteName
  {
    var dir := MarkerDirectory(db);
    JoinPathRelative(dir, siteName);
  }

  /** Markers of different plain site names are different files. */
  lemma InitializedPathInjective(db: Database, a: string, b: string)
    requires !IsAbsolute(a) && !IsAbsolute(b)
    requires InitializedPath(db, a) == InitializedPath(db, b)
    ensures a == b
  {
    var dir := MarkerDirectory(db);
    JoinPathInjective(dir, a, b);
  }

  /** A site is initialized when its marker exists: `<root>/initialized/<site>` for a plain
      name, the name itself for an absolute one. */
  predicate IsInitialized(db: Database, fs: FileSystem, siteName: string)
    ensures IsInitialized(db, fs, siteName) <==>
              if IsAbsolute(siteName) then siteName in fs else MarkerDirectory(db) + "/" + siteName in fs
  {
    if IsAbsolute(siteName) then InitializedPath(db, siteName) in fs
    else
      InitializedPathLayout(db, siteName);
      InitializedPath(db, siteName) in fs
  }

  /** The outcome of marking a site: whether the marker is there, and the file system after. */
  datatype Marking = Marking(ok: bool, fs: FileSystem)

  /** Marks a site as initialized. An existing marker is left alone and reported as done;
      otherwise the parent directory is created if needed (`parentOk` says whether that
      works) and the empty marker file is created (`touchOk` says whether that works). */
  function SetInitialized(db: Database, fs: FileSystem, siteName: string, parentOk: bool, touchOk: bool): (m: Marking)
    ensures m.ok <==> IsInitialized(db, m.fs, siteName)
    ensures m.ok <==> IsInitialized(db, fs, siteName) || (parentOk && touchOk)
    ensures m.fs == fs || m.fs == fs + {InitializedPath(db, siteName)}
    ensures IsInitialized(db, fs, siteName) ==> m.fs == fs
  {
    var path := InitializedPath(db, siteName);
    if path !in fs then
      if parentOk then
        if touchOk then Marking(true, fs + {path})
        else Marking(false, fs)
      else Marking(false, fs)
    else
      Marking(true, fs)
  }

  /** Marking twice is marking once: the second call finds the marker, succeeds whatever
      the file system would do, and changes nothing. */
  lemma SetInitializedIdempotent(db: Database, fs: FileSystem, siteName: string,
                                 parentOk: bool, touchOk: bool, parentOk2: bool, touchOk2: bool)
    requires SetInitialized(db, fs, siteName, parentOk, touchOk).ok
    ensures var m := SetInitialized(db, fs, siteName, parentOk, touchOk);
            SetInitialized(db, m.fs, siteName, parentOk2, touchOk2) == m
  {
  }

  /** Marking a site leaves every other plain site name as it was. */
  lemma SetInitializedOthersUnchanged(db: Database, fs: FileSystem, siteName: string, other: string,
                                      parentOk: bool, touchOk: bool)
    requires !IsAbsolute(siteName) && !IsAbsolute(other) && other != siteName
    ensures IsInitialized(db, SetInitialized(db, fs, siteName, parentOk, touchOk).fs, other)
            == IsInitialized(db, fs, other)
  {
    if InitializedPath(db, other) == InitializedPath(db, siteName) {
      InitializedPathInjective(db, other, siteName);
    }
  }
}
