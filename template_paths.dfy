/** The path rules of the template manager: how paths are normalised, which
    directories the loader skips, which files are templates, how a template is
    named, which templates are static and where a static template is written. */
module TemplatePaths {
  import opened Text

  /** Lower-case, then turn every backslash into a slash: applied to the template
      directory once and to every path the walk reports. */
  function Normalize(p: string): (r: string)
    ensures |r| == |p|
    ensures forall i :: 0 <= i < |p| ==> r[i] == NormalChar(p[i])
  {
    ReplaceAll(ToLower(p), '\\', '/')
  }

  /** A normalised path: no upper-case ASCII letter and no backslash. */
  predicate IsNormal(p: string)
  {
    forall i :: 0 <= i < |p| ==> !('A' <= p[i] <= 'Z') && p[i] != '\\'
  }

  /** Normalising keeps the length, gives a normal path, and leaves a normal path as it is. */
  lemma NormalizeFacts(p: string)
    ensures |Normalize(p)| == |p|
    ensures IsNormal(Normalize(p))
    ensures IsNormal(p) ==> Normalize(p) == p
  {
    var r := Normalize(p);
    forall i | 0 <= i < |p|
      ensures !('A' <= r[i] <= 'Z') && r[i] != '\\'
      ensures IsNormal(p) ==> r[i] == p[i]
    {
      assert r[i] == (if LowerChar(p[i]) == '\\' then '/' else LowerChar(p[i]));
    }
  }

  /** Normalisation is idempotent. */
  lemma NormalizeIdempotent(p: string)
    ensures Normalize(Normalize(p)) == Normalize(p)
  {
    NormalizeFacts(p);
    NormalizeFacts(Normalize(p));
  }

  /** What normalisation makes of one character. */
  function NormalChar(c: char): char
  {
    if LowerChar(c) == '\\' then '/' else LowerChar(c)
  }

  /** The loader does not descend into hidden directories or the `_static` output directory. */
  predicate SkipDirectory(name: string)
  {
    HasPrefix(name, ".") || name == "_static"
  }

  /** Only files whose (case-preserved) name ends in `.html` are templates. */
  predicate IsTemplateFile(name: string)
  {
    HasSuffix(name, ".html")
  }

  /** The template's name: its path with the directory and the slash after it cut off. */
  function TmplName(dir: string, path: string): (name: string)
    requires |dir| < |path|
    ensures |name| == |path| - |dir| - 1
    ensures forall i :: 0 <= i < |name| ==> name[i] == path[|dir| + 1 + i]
  {
    path[|dir| + 1..]
  }

  /** For a path inside the directory the name is the part below it, and the path
      can be rebuilt from the directory and the name. */
  lemma TmplNameOfChild(dir: string, rel: string)
    ensures TmplName(dir, dir + "/" + rel) == rel
  {
    assert (dir + "/" + rel)[|dir| + 1..] == rel;
  }

  lemma TmplNameRebuilds(dir: string, path: string)
    requires HasPrefix(path, dir + "/")
    ensures dir + "/" + TmplName(dir, path) == path
  {
    assert path == path[..|dir| + 1] + path[|dir| + 1..];
  }

  /** Whether a template is static: its path lies below `<dir>/static/`. */
  predicate IsStatic(dir: string, path: string)
  {
    HasPrefix(path, dir + "/static/")
  }

  /** For a path inside the directory, it is static exactly when its name starts with `static/`. */
  lemma StaticByName(dir: string, rel: string)
    ensures IsStatic(dir, dir + "/" + rel) <==> HasPrefix(TmplName(dir, dir + "/" + rel), "static/")
  {
    TmplNameOfChild(dir, rel);
    var path := dir + "/" + rel;
    assert dir + "/static/" == (dir + "/") + "static/";
    if HasPrefix(rel, "static/") {
      assert path == (dir + "/") + "static/" + rel[7..];
    }
    if IsStatic(dir, path) {
      assert path[|dir| + 1..|dir| + 8] == "static/";
      assert rel[..7] == path[|dir| + 1..|dir| + 8];
    }
  }

  /** A static template is written out unless its name, or a directory on its way,
      starts with an underscore. */
  predicate Emits(tmplName: string)
  {
    !HasPrefix(tmplName, "_") && !Contains(tmplName, "/_")
  }

  /** The reference reading of that rule: no path segment of the name begins with `_`. */
  predicate NoSegmentStartsWithUnderscore(tmplName: string)
  {
    forall i {:trigger tmplName[i]} :: 0 <= i < |tmplName| && (i == 0 || tmplName[i - 1] == '/') ==> tmplName[i] != '_'
  }

  lemma EmitsIffNoPrivateSegment(tmplName: string)
    ensures Emits(tmplName) <==> NoSegmentStartsWithUnderscore(tmplName)
  {
    if Emits(tmplName) {
      forall i | 0 <= i < |tmplName| && (i == 0 || tmplName[i - 1] == '/')
        ensures tmplName[i] != '_'
      {
        if i == 0 {
          assert tmplName[i] == '_' ==> HasPrefix(tmplName, "_");
        } else {
          var tail := tmplName[i - 1..];
          assert tail[0] == '/' && tail[1] == tmplName[i];
          assert tmplName[i] == '_' ==> "/_" <= tail;
        }
      }
    }
    if NoSegmentStartsWithUnderscore(tmplName) {
      assert !HasPrefix(tmplName, "_") by {
        if |tmplName| > 0 {
          assert tmplName[0] != '_';
        }
      }
      forall i | 0 <= i <= |tmplName| - 2
        ensures !("/_" <= tmplName[i..])
      {
        assert tmplName[i..][0] == tmplName[i] && tmplName[i..][1] == tmplName[i + 1];
      }
    }
  }

  /** The file a static template is written to: the directory, then `/_`, then the name. */
  function StaticTarget(dir: string, tmplName: string): (filename: string)
    ensures |filename| == |dir| + 2 + |tmplName|
    ensures HasPrefix(filename, dir + "/_") && filename[|dir| + 2..] == tmplName
  {
    dir + "/_" + tmplName
  }

  /** The directory created before writing: the target with the slash and the file name cut off. */
  function StaticParent(filename: string, name: string): (parent: string)
    requires |name| < |filename|
    ensures |parent| == |filename| - |name| - 1
    ensures parent <= filename
  {
    filename[..|filename| - |name| - 1]
  }

  /** For a name `sub/<file>` the parent directory is `<dir>/_sub`. */
  lemma StaticParentIsDirectory(dir: string, sub: string, name: string)
    ensures StaticParent(StaticTarget(dir, sub + "/" + name), name) == dir + "/_" + sub
  {
    var f := StaticTarget(dir, sub + "/" + name);
    assert f == (dir + "/_" + sub) + ("/" + name);
  }

  /** A static template's output lands inside `<dir>/_static`, a directory the loader
      itself never descends into, and the name can be read back from the file name. */
  lemma StaticOutputIsSkipped(dir: string, path: string)
    requires IsStatic(dir, path)
    ensures |dir| < |path|
    ensures HasPrefix(StaticTarget(dir, TmplName(dir, path)), dir + "/_static/")
    ensures StaticTarget(dir, TmplName(dir, path))[|dir| + 2..] == TmplName(dir, path)
    ensures SkipDirectory("_static")
  {
    var name := TmplName(dir, path);
    assert path[..|dir| + 8] == dir + "/static/";
    assert name[..7] == path[|dir| + 1..|dir| + 8];
    assert name == "static/" + name[7..];
    assert StaticTarget(dir, name) == dir + "/_static/" + name[7..];
    assert StaticTarget(dir, name) == (dir + "/_") + name;
  }

  /** A normal path lower-cases to itself, and so does every piece cut from it. */
  lemma NormalIsLower(p: string, from: nat)
    requires IsNormal(p) && from <= |p|
    ensures IsNormal(p[from..]) && ToLower(p[from..]) == p[from..]
  {
    var q := p[from..];
    assert forall i :: 0 <= i < |q| ==> q[i] == p[from + i];
    assert forall i :: 0 <= i < |q| ==> LowerChar(q[i]) == q[i];
  }
}
