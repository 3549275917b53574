/** Where uploaded photos live and how they are addressed
    (src/utils/uploads.js, with the constants of src/config/uploads.js). The
    disk is a set of absolute file paths. */
module Uploads {
  import opened JsValues
  import opened Paths
  import opened Tables

  /** `path.resolve(process.cwd(), 'uploads')`, for a server started in `/app`. */
  const UploadRoot: string := "/app/uploads"
  const MaxFilesPerProperty: nat := 10
  /** 5 MB per file. */
  const MaxFileSize: nat := 5 * 1024 * 1024
  const AllowedMimeTypes: set<string> := {"image/jpeg", "image/png", "image/gif", "image/webp", "image/avif"}

  /** `getImovelUploadDir(imovelId)`: id is the text the route carried. */
  function GetImovelUploadDir(id: string): string
  {
    PathJoin([UploadRoot, "imoveis", id])
  }

  /** `toPublicUrl(imovelId, filename)` for a parsed (positive) id. */
  function ToPublicUrl(id: nat, filename: string): string
  {
    PathJoin(["/uploads", "imoveis", NatToDecimal(id), filename])
  }

  /** The decimal rendering of a number is a plain path segment. */
  lemma DecimalPlain(n: nat)
    ensures Plain(NatToDecimal(n))
  {
    var d := NatToDecimal(n);
    NatToDecimalDigits(n);
    assert IsDigit(d[0]);
    assert '/' !in d by {
      forall i | 0 <= i < |d|
        ensures d[i] != '/'
      {
        assert IsDigit(d[i]);
      }
    }
  }

  lemma UploadRootSegments()
    ensures UploadRoot == "/" + Join(["app", "uploads"], "/")
    ensures Plain("app") && Plain("uploads") && Plain("imoveis")
  {
    assert ["app", "uploads"][1..] == ["uploads"];
  }

  /** Plain segments joined onto the upload root need no normalising. */
  lemma RootJoinPlain(more: seq<string>)
    requires more != []
    requires forall i :: 0 <= i < |more| ==> Plain(more[i])
    ensures PathJoin([UploadRoot] + more) == UploadRoot + "/" + Join(more, "/")
  {
    RootSegmentsPlain();
    JoinPlainOntoRoot(UploadRoot, RootSegments, more);
  }

  /** The segments of the upload root. */
  const RootSegments: seq<string> := ["app", "uploads"]

  /** root is the absolute path of the plain segments rs. */
  predicate RootOf(root: string, rs: seq<string>)
  {
    rs != [] && (forall i :: 0 <= i < |rs| ==> Plain(rs[i])) && root == "/" + Join(rs, "/")
  }

  lemma RootSegmentsPlain()
    ensures RootOf(UploadRoot, RootSegments)
  {
    UploadRootSegments();
    assert RootSegments[0] == "app" && RootSegments[1] == "uploads";
  }

  lemma JoinPlainOntoRoot(root: string, rs: seq<string>, more: seq<string>)
    requires RootOf(root, rs)
    requires more != [] && forall i :: 0 <= i < |more| ==> Plain(more[i])
    ensures PathJoin([root] + more) == root + "/" + Join(more, "/")
  {
    PathJoinPlain(rs, more);
  }

  /** The upload directory of a plain id is `<uploadRoot>/imoveis/<id>`, a
      directory strictly inside the upload root. */
  lemma UploadDirPlain(id: string)
    requires Plain(id)
    ensures GetImovelUploadDir(id) == UploadRoot + "/imoveis/" + id
    ensures Under(GetImovelUploadDir(id), UploadRoot)
  {
    var more := ["imoveis", id];
    assert [UploadRoot, "imoveis", id] == [UploadRoot] + more;
    assert Plain("imoveis") by {
      UploadRootSegments();
    }
    RootJoinPlain(more);
    assert more[1..] == [id];
    assert Join(more, "/") == "imoveis" + "/" + id;
    assert "/" + ("imoveis" + "/" + id) == "/imoveis/" + id;
    var p := UploadRoot + "/imoveis/" + id;
    assert p[..|UploadRoot + "/"|] == UploadRoot + "/";
  }

  lemma PublicPrefixSegments()
    ensures "/uploads" == "/" + Join(["uploads"], "/")
  {
  }

  lemma PublicUrlJoin(id: nat, f: string)
    requires Plain(f)
    ensures ToPublicUrl(id, f) == "/uploads" + "/" + Join(["imoveis", NatToDecimal(id), f], "/")
  {
    var d := NatToDecimal(id);
    DecimalPlain(id);
    UploadRootSegments();
    PublicPrefixSegments();
    assert ["/uploads", "imoveis", d, f] == ["/uploads"] + ["imoveis", d, f];
    PathJoinPlain(["uploads"], ["imoveis", d, f]);
  }

  lemma JoinThree(a: string, b: string, c: string)
    ensures Join([a, b, c], "/") == a + "/" + (b + "/" + c)
  {
    assert [a, b, c] == [a] + [b, c] && [b, c] == [b] + [c];
    JoinCons(a, [b, c]);
    JoinCons(b, [c]);
  }

  /** `toPublicUrl(id, f)` is `/uploads/imoveis/<id>/<f>` for a plain f. */
  lemma PublicUrlPlain(id: nat, f: string)
    requires Plain(f)
    ensures ToPublicUrl(id, f) == "/uploads/imoveis/" + NatToDecimal(id) + "/" + f
  {
    var d := NatToDecimal(id);
    PublicUrlJoin(id, f);
    JoinThree("imoveis", d, f);
    assert "/uploads" + "/" + ("imoveis" + "/" + (d + "/" + f)) == "/uploads/imoveis/" + d + "/" + f;
  }

  /** `files.filter((filePath) => !!filePath)`. */
  function NonEmptyPaths(paths: seq<string>): (out: seq<string>)
    ensures forall p :: p in out <==> p in paths && p != ""
  {
    Where(paths, (p: string) => p != "")
  }

  /** The files on disk, by absolute path. */
  class Disk {
    var files: set<string>

    constructor (files: set<string>)
      ensures this.files == files
    {
      this.files := files;
    }

    /** `deleteFilesSafely(paths)`: every non-empty listed path is unlinked
        unless the unlink fails (the paths in failing); failures are
        swallowed, so the call never fails, and no other file is touched. */
    method DeleteFilesSafely(paths: seq<string>, failing: set<string>)
      modifies this
      ensures files <= old(files)
      ensures forall p :: p in old(files) ==> (p in files <==> !(p in paths && p != "" && p !in failing))
    {
      var live := NonEmptyPaths(paths);
      for k := 0 to |live|
        invariant files <= old(files)
        invariant forall p :: p in old(files) ==> (p in files <==> !(p in live[..k] && p !in failing))
      {
        assert live[..k + 1] == live[..k] + [live[k]];
        if live[k] !in failing {
          files := files - {live[k]};
        }
      }
      assert live[..|live|] == live;
    }
  }
}
