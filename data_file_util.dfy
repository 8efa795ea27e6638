/**
 * The plugin's data-file helpers (`DataFileUtil`). The host's data directory
 * is a map from file path to what reading that file yields: a path is in the
 * map when the file exists, and `None` stands for a file that deserialises to
 * null. A `new T()` is the `empty` argument.
 */
module DataFileUtil {
  import opened Wrappers

  /** The plugin's name, the default data file name. */
  const PluginName: string := "ModMail"

  type DataFiles<T> = map<string, Option<T>>

  /** The plugin's data folder: the data directory itself. */
  const Folder: string := ""

  /** A path is rooted when it starts with the directory separator. */
  predicate IsRooted(path: string) {
    |path| > 0 && path[0] == '/'
  }

  /** `Path.Combine(path1, path2)`: `path2` when it is rooted or `path1` is
      empty; otherwise the two joined by one separator. */
  function PathCombine(path1: string, path2: string): string {
    if IsRooted(path2) || path1 == [] then path2
    else if path1[|path1| - 1] == '/' then path1 + path2
    else path1 + "/" + path2
  }

  /** Combining with the empty folder leaves any file name as it is. */
  lemma PathCombineEmptyFolder(filename: string)
    ensures PathCombine(Folder, filename) == filename
  {
  }

  /** The path of a data file in the plugin's folder, named after the
      plugin when no name is given. */
  function GetFilePath(filename: Option<string>): (path: string)
    ensures filename.Some? ==> path == filename.value
    ensures filename.None? ==> path == PluginName
  {
    PathCombine(Folder, filename.GetOr(PluginName))
  }

  predicate Exists<T>(files: DataFiles<T>, filePath: string) {
    filePath in files
  }

  /** What the data file system's `ReadObject` yields; a missing file reads as null. */
  function ReadObject<T>(files: DataFiles<T>, filePath: string): Option<T> {
    if filePath in files then files[filePath] else None
  }

  /** Reads a file, replacing a null result by a new, empty object. */
  function Load<T>(files: DataFiles<T>, filePath: string, empty: T): T {
    var data := ReadObject(files, filePath);
    if data.None? then empty else data.value
  }

  /** Null exactly when the file does not exist; otherwise what `Load` gives. */
  function LoadIfExists<T>(files: DataFiles<T>, filePath: string, empty: T): Option<T> {
    if Exists(files, filePath) then Some(Load(files, filePath, empty)) else None
  }

  /** Never null: the stored object when the file exists and reads as
      non-null, otherwise a new, empty object. */
  function LoadOrCreate<T>(files: DataFiles<T>, filePath: string, empty: T): (data: T)
    ensures filePath in files && files[filePath].Some? ==> data == files[filePath].value
    ensures filePath !in files || files[filePath].None? ==> data == empty
  {
    var data := LoadIfExists(files, filePath, empty);
    if data.None? then empty else data.value
  }

  /** Since a missing file reads as null, `LoadOrCreate` and `Load` agree on
      every path, and `LoadIfExists` is null exactly for a missing file and
      otherwise holds what the other two give. */
  lemma LoadVariantsAgree<T>(files: DataFiles<T>, filePath: string, empty: T)
    ensures LoadOrCreate(files, filePath, empty) == Load(files, filePath, empty)
    ensures LoadIfExists(files, filePath, empty).None? <==> !Exists(files, filePath)
    ensures Exists(files, filePath) ==>
              LoadIfExists(files, filePath, empty) == Some(LoadOrCreate(files, filePath, empty))
  {
  }

  /** Writes `data` to the file at `filePath`, creating it if need be. */
  function Save<T>(files: DataFiles<T>, filePath: string, data: T): DataFiles<T> {
    files[filePath := Some(data)]
  }

  /** What was saved is what is loaded back, and saving one file leaves
      what every other file loads as it was. */
  lemma SaveThenLoad<T>(files: DataFiles<T>, filePath: string, data: T, other: string, empty: T)
    ensures LoadOrCreate(Save(files, filePath, data), filePath, empty) == data
    ensures other != filePath ==>
              LoadOrCreate(Save(files, filePath, data), other, empty) == LoadOrCreate(files, other, empty)
  {
  }

  /** Removes the file at `filePath`. */
  function Delete<T>(files: DataFiles<T>, filePath: string): DataFiles<T> {
    files - {filePath}
  }

  /** A deleted file no longer exists and loads as a new, empty object, and
      every other file loads as before. */
  lemma DeleteThenLoad<T>(files: DataFiles<T>, filePath: string, other: string, empty: T)
    ensures LoadIfExists(Delete(files, filePath), filePath, empty) == None
    ensures LoadOrCreate(Delete(files, filePath), filePath, empty) == empty
    ensures other != filePath ==>
              LoadOrCreate(Delete(files, filePath), other, empty) == LoadOrCreate(files, other, empty)
  {
  }

  /** The ".json" extension the data file system appends to every data file. */
  const Extension: string := ".json"

  /** A data file's path without its last five characters, its extension. */
  function WithoutExtension(path: string): string
    requires |path| >= |Extension|
  {
    path[..|path| - |Extension|]
  }

  lemma WithoutExtensionInverse(name: string)
    ensures WithoutExtension(name + Extension) == name
  {
    assert (name + Extension)[..|name|] == name;
  }

  /** The index of the first path too short to lose five characters, or the
      number of paths when there is none. */
  function FirstShortPath(paths: seq<string>): (k: nat)
    ensures k <= |paths|
    ensures forall j :: 0 <= j < k ==> |paths[j]| >= |Extension|
    ensures k < |paths| ==> |paths[k]| < |Extension|
  {
    if paths == [] then 0
    else if |paths[0]| < |Extension| then 0
    else 1 + FirstShortPath(paths[1..])
  }

  /**
   * `GetAllFilePaths`: strips the extension from each path the data file
   * system lists, in place. `Substring` throws on a path shorter than five
   * characters; then `ok` is false and the paths before it are already
   * stripped, the rest untouched.
   */
  method GetAllFilePaths(filePaths: array<string>) returns (ok: bool)
    modifies filePaths
    ensures ok <==> FirstShortPath(old(filePaths[..])) == filePaths.Length
    ensures forall j :: 0 <= j < filePaths.Length ==>
              filePaths[j] == if j < FirstShortPath(old(filePaths[..]))
                              then WithoutExtension(old(filePaths[j]))
                              else old(filePaths[j])
  {
    ghost var listed := filePaths[..];
    ghost var stop := FirstShortPath(listed);
    var i := 0;
    while i < filePaths.Length
      invariant 0 <= i <= stop
      invariant forall j :: 0 <= j < i ==> filePaths[j] == WithoutExtension(listed[j])
      invariant forall j :: i <= j < filePaths.Length ==> filePaths[j] == listed[j]
    {
      if |filePaths[i]| < |Extension| {
        return false;
      }
      filePaths[i] := WithoutExtension(filePaths[i]);
      i := i + 1;
    }
    return true;
  }
}
