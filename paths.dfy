// The file-name extension of a path, as `Path::extension` reports it.
module Paths {
  import opened Wrappers
  import opened Text

  /** The last component of a `/`-separated path. */
  function FileName(path: string): (name: string)
    ensures |name| <= |path| && name == path[|path| - |name|..]
  {
    match LastIndexOf(path, '/')
    case None => path
    case Some(i) => path[i + 1..]
  }

  /** The text after the last `.` of a file name, or `None` when the
      name has no `.` other than a leading one, or is `..`. */
  function NameExtension(name: string): (r: Option<string>)
    ensures r.Some? ==> '.' !in r.value
    ensures r.Some? ==> |r.value| + 1 < |name| && name[|name| - |r.value| - 1] == '.'
                        && name[|name| - |r.value|..] == r.value
  {
    if name == ".." then None
    else match LastIndexOf(name, '.')
      case None => None
      case Some(i) =>
        if i == 0 then None
        else
          var ext := name[i + 1..];
          assert forall j :: 0 <= j < |ext| ==> ext[j] == name[i + 1 + j];
          Some(ext)
  }

  function Extension(path: string): Option<string>
  {
    NameExtension(FileName(path))
  }

  lemma FileNameAfterSlash(dir: string, name: string)
    requires dir == "" || dir[|dir| - 1] == '/'
    requires '/' !in name
    ensures FileName(dir + name) == name
  {
    var path := dir + name;
    if dir == "" {
      assert path == name;
      assert LastIndexOf(path, '/').None?;
    } else {
      forall j | |dir| <= j < |path|
        ensures path[j] != '/'
      {
        assert path[j] == name[j - |dir|];
      }
      LastIndexAt(path, '/', |dir| - 1);
      assert path[|dir|..] == name;
    }
  }

  lemma NameExtensionOf(stem: string, ext: string)
    requires |stem| > 0 && '.' !in ext
    requires stem + "." + ext != ".."
    ensures NameExtension(stem + "." + ext) == Some(ext)
  {
    var name := stem + "." + ext;
    forall j | |stem| < j < |name|
      ensures name[j] != '.'
    {
      assert name[j] == ext[j - |stem| - 1];
    }
    LastIndexAt(name, '.', |stem|);
    assert name[|stem| + 1..] == ext;
  }

  /** A file name `stem.ext` in any directory has extension `ext`. */
  lemma ExtensionOf(dir: string, stem: string, ext: string)
    requires dir == "" || dir[|dir| - 1] == '/'
    requires |stem| > 0 && '/' !in stem && '/' !in ext && '.' !in ext
    requires stem + "." + ext != ".."
    ensures Extension(dir + stem + "." + ext) == Some(ext)
  {
    assert '/' !in stem + "." + ext;
    assert dir + stem + "." + ext == dir + (stem + "." + ext);
    FileNameAfterSlash(dir, stem + "." + ext);
    NameExtensionOf(stem, ext);
  }
}
