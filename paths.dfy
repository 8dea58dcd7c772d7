/**
 * Paths as `/`-separated text: the final component, Rust's `Path::extension`
 * and `Path::join`, for the forms the build tool meets.
 */
module Paths {
  import opened Wrappers
  import opened Text

  /** The final component of a path: the text after its last `/`. */
  function FileName(path: string): (name: string)
    ensures '/' !in name
    ensures EndsWith(path, name)
    ensures |name| < |path| ==> path[|path| - |name| - 1] == '/'
  {
    match LastIndexOf(path, '/')
    case None => path
    case Some(i) => path[i + 1..]
  }

  /**
   * The extension of a file name: the text after its last `.`, except that a name
   * whose only dot opens it (`.so`) and the name `..` have none.
   */
  function NameExtension(name: string): Option<string> {
    if name == ".." then None
    else match LastIndexOf(name, '.')
      case None => None
      case Some(i) => if i == 0 then None else Some(name[i + 1..])
  }

  /** An extension is a tail of the name after a dot, and holds no dot itself. */
  lemma NameExtensionTail(name: string)
    requires NameExtension(name).Some?
    ensures '.' !in NameExtension(name).value
    ensures EndsWith(name, "." + NameExtension(name).value)
  {
    var i := LastIndexOf(name, '.').value;
    assert name[i..] == "." + name[i + 1..];
  }

  /** `Path::extension`: the extension of the path's final component. */
  function Extension(path: string): Option<string> {
    NameExtension(FileName(path))
  }

  /**
   * A file name has extension `ext` (a text without `.`) exactly when it ends with
   * `.ext`, that dot does not open the name, and the name is not `..`.
   */
  lemma NameExtensionIff(name: string, ext: string)
    requires '.' !in ext
    ensures NameExtension(name) == Some(ext) <==>
      EndsWith(name, "." + ext) && |ext| + 1 < |name| && name != ".."
  {
    var dotted := "." + ext;
    if EndsWith(name, dotted) && |ext| + 1 < |name| && name != ".." {
      var i := |name| - |dotted|;
      assert name[i] == '.';
      forall j | i < j < |name| ensures name[j] != '.' {
        assert name[j] == ext[j - i - 1];
      }
      LastIndexOfAt(name, '.', i);
      assert name[i + 1..] == ext;
    }
  }

  /**
   * A path has extension `ext` (a text without `.` or `/`) exactly when it ends
   * with `.ext`, that dot does not open the file name, and the name is not `..`.
   */
  lemma ExtensionIff(path: string, ext: string)
    requires '.' !in ext && '/' !in ext
    ensures Extension(path) == Some(ext) <==>
      EndsWith(path, "." + ext) && |ext| + 1 < |FileName(path)| && FileName(path) != ".."
  {
    var name := FileName(path);
    NameExtensionIff(name, ext);
    if |"." + ext| <= |name| {
      EndsWithTail(path, name, "." + ext);
    }
  }

  /** `PathBuf::join` of a relative path: a `/` is put between unless `dir` is empty or already ends with one. */
  function JoinPath(dir: string, rel: string): (p: string)
    ensures p == dir + rel || p == dir + "/" + rel
    ensures p == dir + rel <==> dir == [] || dir[|dir| - 1] == '/'
    ensures EndsWith(p, rel)
  {
    var p := if dir == [] || dir[|dir| - 1] == '/' then dir + rel else dir + "/" + rel;
    assert p[|p| - |rel|..] == rel;
    p
  }

  /** Joining a bare name onto a directory gives a path whose final component is that name. */
  lemma FileNameOfJoin(dir: string, name: string)
    requires '/' !in name
    ensures FileName(JoinPath(dir, name)) == name
  {
    var p := JoinPath(dir, name);
    if p != name {
      var k := |p| - |name| - 1;
      assert p[k] == '/';
      forall j | k < j < |p| ensures p[j] != '/' {
        assert p[j] == name[j - k - 1];
      }
      LastIndexOfAt(p, '/', k);
      assert p[k + 1..] == name;
    }
  }
}
