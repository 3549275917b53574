/** The photo handlers (src/controllers/fotos.controller.js): listing a
    property's photos, adding photos (uploaded files or one external URL)
    under a per-property quota with a compensating rollback, and deleting a
    photo together with its file. */
module FotosController {
  import opened Base
  import opened JsValues
  import opened MysqlErrors
  import opened Parsing
  import opened Http
  import opened Paths
  import opened Uploads
  import opened Fotos
  import Imoveis
  import FotosRoutes

  const MsgImovelInvalido: string := "Identificador de imovel invalido."
  const MsgImovelNaoEncontrado: string := "Imovel nao encontrado."
  const MsgSemFoto: string := "Envie ao menos uma foto ou forneca uma URL valida."
  const MsgLimite: string := "Cada imovel pode conter no maximo 10 fotos."
  const MsgIdsInvalidos: string := "Identificadores invalidos."
  const MsgFotoNaoEncontrada: string := "Foto nao encontrada."
  const PublicPrefix: string := "/uploads/"

  // ---------------------------------------------------------------------
  // responses

  /** A photo as the handlers send it: the row, the file name taken from its
      url and, for a photo just uploaded, the original name and size. */
  datatype FotoResponse = FotoResponse(
    id: int,
    imovelId: int,
    url: string,
    descricao: Option<string>,
    filename: Option<string>,
    originalName: Option<string>,
    size: Option<int>)

  /** The `filename` of a response: what follows the last `/` of a url that
      has one, and undefined for a url without. */
  function UrlFilename(url: string): (r: Option<string>)
    ensures r.Some? <==> '/' in url
    ensures r.Some? ==> '/' !in r.value && |r.value| < |url|
                        && url[|url| - |r.value| - 1] == '/' && url[|url| - |r.value|..] == r.value
  {
    if '/' in url then
      var n := TailLength(url, '/');
      Some(url[|url| - n..])
    else None
  }

  /** `mapFotoToResponse` of a row. */
  function MapFotoToResponse(f: Foto): (r: FotoResponse)
    ensures r.id == f.id && r.imovelId == f.imovelId && r.url == f.url && r.descricao == f.descricao
    ensures r.filename == UrlFilename(f.url) && r.originalName.None? && r.size.None?
  {
    FotoResponse(f.id, f.imovelId, f.url, f.descricao, UrlFilename(f.url), None, None)
  }

  function Responses(fs: seq<Foto>): (rs: seq<FotoResponse>)
    ensures |rs| == |fs|
    ensures forall i :: 0 <= i < |fs| ==> rs[i] == MapFotoToResponse(fs[i])
  {
    if fs == [] then [] else [MapFotoToResponse(fs[0])] + Responses(fs[1..])
  }

  /** The response of a photo that was uploaded under a public url names
      the stored file. */
  lemma FilenameOfPublicUrl(id: nat, f: string)
    requires Plain(f)
    ensures UrlFilename(ToPublicUrl(id, f)) == Some(f)
  {
    PublicUrlPlain(id, f);
    var dir := "/uploads/imoveis/" + NatToDecimal(id);
    assert ToPublicUrl(id, f) == dir + ['/'] + f;
    TailLengthAfter(dir, '/', f);
  }

  // ---------------------------------------------------------------------
  // from url to file

  /** `toAbsoluteFilePath`, as written: a url under `/uploads/` is joined,
      after that prefix, onto the upload root; any other url has no file. */
  function ToAbsoluteFilePath(url: string): (r: Option<string>)
    ensures r.Some? <==> StartsWith(url, PublicPrefix)
    ensures r.Some? ==> r.value == PathJoin([UploadRoot, url[|PublicPrefix|..]])
  {
    if url == "" then None
    else if !StartsWith(url, PublicPrefix) then None
    else Some(PathJoin([UploadRoot, url[|PublicPrefix|..]]))
  }

  /** The segments of `<uploadRoot>/../x`. */
  lemma EscapeSplit(x: string)
    requires Plain(x)
    ensures Split(UploadRoot + "/" + (".." + "/" + x)) == ["", "app", "uploads", "..", x]
  {
    var tail := ".." + "/" + x;
    var t3 := "uploads" + "/" + tail;
    var t2 := "app" + "/" + t3;
    EscapeSplitTail(x);
    assert Split(t2) == ["app", "uploads", "..", x] by {
      SplitAtSlash("app", t3);
      SplitNoSlash("app");
    }
    assert Split("" + "/" + t2) == ["", "app", "uploads", "..", x] by {
      SplitAtSlash("", t2);
    }
    assert UploadRoot + "/" + tail == "" + "/" + t2 by {
      assert UploadRoot == "/" + "app" + "/" + "uploads";
    }
  }

  lemma EscapeSplitTail(x: string)
    requires Plain(x)
    ensures Split("uploads" + "/" + (".." + "/" + x)) == ["uploads", "..", x]
  {
    var tail := ".." + "/" + x;
    assert Split(tail) == ["..", x] by {
      SplitAtSlash("..", x);
      SplitNoSlash("..");
      SplitNoSlash(x);
    }
    SplitAtSlash("uploads", tail);
    SplitNoSlash("uploads");
  }

  /** `..` climbs out of `uploads`. */
  lemma EscapeResolve(x: string)
    requires Plain(x)
    ensures Resolve(["", "app", "uploads", "..", x]) == ["app", x]
  {
    var pre := ["", "app", "uploads", ".."];
    ResolvePlain(pre, [x]);
    assert pre + [x] == ["", "app", "uploads", "..", x];
    assert pre[..3] == ["", "app", "uploads"];
    assert ["", "app", "uploads"][..2] == ["", "app"];
    assert ["", "app"][..1] == [""];
    assert [""][..0] == [];
    assert Resolve([""]) == [];
    assert Resolve(["", "app"]) == ["app"];
    assert Resolve(["", "app", "uploads"]) == ["app", "uploads"];
  }

  /** The url is client input on the external-url path, and a `..` segment
      survives the prefix test: `/uploads/../x` names the file x of the
      application's own directory (`/uploads/../package.json` names
      `/app/package.json`). */
  lemma AbsolutePathEscapesRoot(x: string)
    requires Plain(x)
    ensures ToAbsoluteFilePath(PublicPrefix + (".." + "/" + x)) == Some("/" + ("app" + "/" + x))
    ensures !Under("/" + ("app" + "/" + x), UploadRoot)
  {
    var tail := ".." + "/" + x;
    var url := PublicPrefix + tail;
    assert StartsWith(url, PublicPrefix) && url[|PublicPrefix|..] == tail;
    var raw := UploadRoot + "/" + tail;
    assert Join([UploadRoot, tail], "/") == raw by {
      assert [UploadRoot, tail][1..] == [tail];
    }
    EscapeSplit(x);
    EscapeResolve(x);
    JoinCons("app", [x]);
    assert StartsWith(raw, "/") by {
      UploadRootSegments();
    }
    var p := "/" + ("app" + "/" + x);
    assert (UploadRoot + "/")[12] == '/';
    assert |p| >= 13 ==> p[12] == x[7];
  }

  /** `toAbsoluteFilePath` as intended: only a path that stays inside the
      upload root names a file to delete. */
  function SafeAbsoluteFilePath(url: string): (r: Option<string>)
    ensures r.Some? ==> Under(r.value, UploadRoot)
    ensures r.Some? ==> ToAbsoluteFilePath(url) == r
    ensures ToAbsoluteFilePath(url).Some? && Under(ToAbsoluteFilePath(url).value, UploadRoot) ==> r == ToAbsoluteFilePath(url)
  {
    match ToAbsoluteFilePath(url)
    case Some(p) => if Under(p, UploadRoot) then Some(p) else None
    case None => None
  }

  /** A public url is the prefix followed by `imoveis/<id>/<filename>`. */
  lemma PublicUrlRelative(id: nat, f: string)
    requires Plain(f)
    ensures StartsWith(ToPublicUrl(id, f), PublicPrefix)
    ensures ToPublicUrl(id, f)[|PublicPrefix|..] == Join(["imoveis", NatToDecimal(id), f], "/")
  {
    var d := NatToDecimal(id);
    PublicUrlPlain(id, f);
    JoinThree("imoveis", d, f);
    var rel := "imoveis" + "/" + (d + "/" + f);
    assert ToPublicUrl(id, f) == PublicPrefix + rel;
  }

  /** A relative path of plain segments joined onto the upload root needs
      no normalising. */
  lemma UnderRootPlain(more: seq<string>)
    requires more != []
    requires forall i :: 0 <= i < |more| ==> Plain(more[i])
    ensures PathJoin([UploadRoot, Join(more, "/")]) == UploadRoot + "/" + Join(more, "/")
  {
    assert Join([UploadRoot, Join(more, "/")], "/") == Join([UploadRoot] + more, "/") by {
      assert [UploadRoot, Join(more, "/")][1..] == [Join(more, "/")];
      JoinCons(UploadRoot, more);
    }
    RootJoinPlain(more);
  }

  /** The url of an uploaded photo leads back to the file it was stored as,
      `<upload dir of id>/<filename>`, and both readings agree on it. */
  lemma PublicUrlRoundTrip(id: nat, f: string)
    requires Plain(f)
    ensures ToAbsoluteFilePath(ToPublicUrl(id, f)) == Some(GetImovelUploadDir(NatToDecimal(id)) + "/" + f)
    ensures SafeAbsoluteFilePath(ToPublicUrl(id, f)) == ToAbsoluteFilePath(ToPublicUrl(id, f))
  {
    var d := NatToDecimal(id);
    var more := ["imoveis", d, f];
    PublicUrlRelative(id, f);
    assert Plain(d) && Plain("imoveis") by {
      DecimalPlain(id);
      UploadRootSegments();
    }
    UnderRootPlain(more);
    JoinThree("imoveis", d, f);
    UploadDirPlain(d);
    var p := GetImovelUploadDir(d) + "/" + f;
    assert UploadRoot + "/" + Join(more, "/") == p;
    assert Under(p, UploadRoot) by {
      assert p[..|UploadRoot + "/"|] == UploadRoot + "/";
    }
  }

  /** The upload middleware names the directory by the route's raw text,
      the url by the parsed id: the two agree exactly when the text is the
      id's own decimal rendering. */
  lemma StoredDirMatchesUrl(raw: string)
    requires FotosRoutes.Destination(Some(raw)).Ok? && ParseId(Str(raw)).Some?
    ensures FotosRoutes.Destination(Some(raw)).value == GetImovelUploadDir(NatToDecimal(ParseId(Str(raw)).value))
            <==> raw == NatToDecimal(ParseId(Str(raw)).value)
  {
    var d := NatToDecimal(ParseId(Str(raw)).value);
    var pre := UploadRoot + "/imoveis/";
    FotosRoutes.DestinationInsideRoot(raw);
    DecimalPlain(ParseId(Str(raw)).value);
    UploadDirPlain(d);
    assert (pre + raw)[|pre|..] == raw && (pre + d)[|pre|..] == d;
  }

  lemma NumberOfLeadingZero()
    ensures StringToNumber("05") == Finite(5.0)
  {
    assert Trim("05") == "05";
    assert IndexOf("05", '.') == 2;
    assert "05"[..2] == "05" && "05"[..1] == "0";
  }

  /** Route `/imoveis/05/fotos`: the file is stored under `imoveis/05`, but
      the url points at `imoveis/5`, where nothing was stored. */
  lemma LeadingZeroOrphansUpload()
    ensures FotosRoutes.Destination(Some("05")).Ok? && ParseId(Str("05")) == Some(5)
    ensures FotosRoutes.Destination(Some("05")).value != GetImovelUploadDir(NatToDecimal(5))
  {
    NumberOfLeadingZero();
    assert (5.0).Floor == 5;
    assert NatToDecimal(5) == "5";
    StoredDirMatchesUrl("05");
  }

  /** With the directory named by the parsed id, a stored photo's url leads
      back to the file the middleware stored, whatever text the route held. */
  lemma ParsedDestinationRoundTrip(raw: string, f: string)
    requires Plain(f) && FotosRoutes.ParsedDestination(Some(raw)).Ok?
    ensures ParseId(Str(raw)).Some?
    ensures ToAbsoluteFilePath(ToPublicUrl(ParseId(Str(raw)).value, f))
            == Some(FotosRoutes.ParsedDestination(Some(raw)).value + "/" + f)
  {
    PublicUrlRoundTrip(ParseId(Str(raw)).value, f);
  }

  /** On a canonical id the corrected destination is the one in use. */
  lemma ParsedDestinationAgrees(raw: string)
    requires ParseId(Str(raw)).Some? && raw == NatToDecimal(ParseId(Str(raw)).value)
    ensures FotosRoutes.ParsedDestination(Some(raw)) == FotosRoutes.Destination(Some(raw))
  {
    NatToDecimalDigits(ParseId(Str(raw)).value);
  }

  // ---------------------------------------------------------------------
  // the request

  /** A file the upload middleware stored: its path on disk, its generated
      name, and what the client called it. */
  datatype UploadedFile = UploadedFile(path: string, filename: string, originalName: string, size: int)

  /** `Array.isArray(req.files) ? req.files : []`. */
  function Uploaded(files: Option<seq<UploadedFile>>): seq<UploadedFile>
  {
    if files.Some? then files.value else []
  }

  function PathsOf(files: seq<UploadedFile>): (ps: seq<string>)
    ensures |ps| == |files|
    ensures forall i :: 0 <= i < |files| ==> ps[i] == files[i].path
  {
    if files == [] then [] else [files[0].path] + PathsOf(files[1..])
  }

  /** What `cleanupUploadedFiles` leaves on disk: every stored file whose
      unlink does not fail is gone, and nothing else is touched. */
  ghost predicate CleanedUp(before: set<string>, after: set<string>, files: seq<UploadedFile>, failing: set<string>)
  {
    after <= before
    && forall p :: p in before ==> (p in after <==> !(p in PathsOf(files) && p != "" && p !in failing))
  }

  /** `typeof req.body.descricao === 'string' ? req.body.descricao : null`. */
  function Descricao(body: map<string, Js>): Option<string>
  {
    if Get(body, "descricao").Str? then Some(Get(body, "descricao").s) else None
  }

  /** The url of the external-url path, trimmed, or '' when not a string. */
  function ExternalUrl(body: map<string, Js>): string
  {
    OrEmpty(TrimIfString(Get(body, "url")))
  }

  // ---------------------------------------------------------------------
  // the batch of inserts and its rollback

  /** The public urls of the uploaded files, in order. */
  function PublicUrls(imovelId: nat, files: seq<UploadedFile>): (urls: seq<string>)
    ensures |urls| == |files|
  {
    if files == [] then [] else [ToPublicUrl(imovelId, files[0].filename)] + PublicUrls(imovelId, files[1..])
  }

  lemma {:induction false} PublicUrlsAt(imovelId: nat, files: seq<UploadedFile>, j: int)
    requires 0 <= j < |files|
    ensures PublicUrls(imovelId, files)[j] == ToPublicUrl(imovelId, files[j].filename)
  {
    if j > 0 {
      PublicUrlsAt(imovelId, files[1..], j - 1);
    }
  }

  /** The row the j-th uploaded file becomes when the batch starts at id
      start; urls[j] is the file's public url. */
  function BatchRow(start: int, imovelId: nat, urls: seq<string>, descricao: Option<string>, j: int): Foto
    requires 0 <= j < |urls|
  {
    Foto(start + j, imovelId, urls[j], descricao)
  }

  /** The rows of the first n files, in order. */
  function BatchFotos(start: int, imovelId: nat, urls: seq<string>, descricao: Option<string>, n: nat): (fs: seq<Foto>)
    requires n <= |urls|
    ensures |fs| == n
  {
    if n == 0 then [] else BatchFotos(start, imovelId, urls, descricao, n - 1) + [BatchRow(start, imovelId, urls, descricao, n - 1)]
  }

  /** The rows of the first n files, by key. */
  function BatchRows(start: int, imovelId: nat, urls: seq<string>, descricao: Option<string>, n: nat): map<int, Foto>
    requires n <= |urls|
  {
    if n == 0 then map[]
    else BatchRows(start, imovelId, urls, descricao, n - 1)[start + n - 1 := BatchRow(start, imovelId, urls, descricao, n - 1)]
  }

  /** The batch holds the keys start .. start + n - 1, the j-th with the
      j-th file's row. */
  lemma {:induction false} BatchRowsFacts(start: int, imovelId: nat, urls: seq<string>, descricao: Option<string>, n: nat)
    requires n <= |urls|
    ensures forall k :: k in BatchRows(start, imovelId, urls, descricao, n) <==> start <= k < start + n
    ensures forall k :: k in BatchRows(start, imovelId, urls, descricao, n) ==>
              BatchRows(start, imovelId, urls, descricao, n)[k] == BatchRow(start, imovelId, urls, descricao, k - start)
  {
    if n > 0 {
      BatchRowsFacts(start, imovelId, urls, descricao, n - 1);
    }
  }

  /** Writing one key after a merge is writing it into the right side. */
  lemma MergeUpdate(rows: map<int, Foto>, m: map<int, Foto>, k: int, f: Foto)
    ensures (rows + m)[k := f] == rows + m[k := f]
  {
    var a := (rows + m)[k := f];
    var b := rows + m[k := f];
    assert forall j :: j in a <==> j in b;
    assert forall j :: j in a ==> a[j] == b[j];
  }

  /** The response for the j-th uploaded file. */
  function BatchResponse(start: int, imovelId: nat, files: seq<UploadedFile>, urls: seq<string>, descricao: Option<string>, j: nat): FotoResponse
    requires j < |files| == |urls|
  {
    MapFotoToResponse(BatchRow(start, imovelId, urls, descricao, j)).(originalName := Some(files[j].originalName), size := Some(files[j].size))
  }

  /** The responses `novasFotos` holds after the first n inserts. */
  function BatchResponses(start: int, imovelId: nat, files: seq<UploadedFile>, urls: seq<string>, descricao: Option<string>, n: nat): (rs: seq<FotoResponse>)
    requires n <= |files| == |urls|
    ensures |rs| == n
  {
    if n == 0 then []
    else BatchResponses(start, imovelId, files, urls, descricao, n - 1) + [BatchResponse(start, imovelId, files, urls, descricao, n - 1)]
  }

  /** The first index whose insert fails, or n when none of the first n does. */
  function FirstFault(faults: seq<Option<Failure>>, n: nat): (k: nat)
    ensures k <= n
    ensures forall j :: 0 <= j < k ==> At(faults, j).None?
    ensures k < n ==> At(faults, k).Some?
  {
    if n == 0 then 0
    else
      var k := FirstFault(faults, n - 1);
      if k < n - 1 then k else if At(faults, n - 1).Some? then n - 1 else n
  }

  /** The keys of the batch whose compensating delete succeeds. */
  function RolledBack(start: int, rollbackFaults: seq<Option<Failure>>, n: nat): (ks: set<int>)
    ensures forall k :: k in ks <==> start <= k < start + n && At(rollbackFaults, k - start).None?
  {
    set j | 0 <= j < n && At(rollbackFaults, j).None? :: start + j
  }

  /** A batch whose compensating deletes all succeed leaves the table as it
      was: no row of the batch remains. */
  lemma RollbackRestores(rows: map<int, Foto>, start: int, imovelId: nat, urls: seq<string>,
                         descricao: Option<string>, n: nat, rollbackFaults: seq<Option<Failure>>)
    requires n <= |urls|
    requires forall k :: k in rows ==> k < start
    requires forall j :: 0 <= j < n ==> At(rollbackFaults, j).None?
    ensures (rows + BatchRows(start, imovelId, urls, descricao, n)) - RolledBack(start, rollbackFaults, n) == rows
  {
    BatchRowsFacts(start, imovelId, urls, descricao, n);
    var out := (rows + BatchRows(start, imovelId, urls, descricao, n)) - RolledBack(start, rollbackFaults, n);
    assert forall k :: k in out <==> k in rows;
    assert forall k :: k in out ==> out[k] == rows[k];
  }

  /** Inserting the batch one row at a time lists its rows after the
      property's existing photos, in file order. */
  lemma {:induction false} BatchListed(rows: map<int, Foto>, start: nat, imovelId: nat, urls: seq<string>,
                                       descricao: Option<string>, n: nat)
    requires n <= |urls|
    requires forall k :: k in rows ==> k < start
    ensures PhotosOf(rows + BatchRows(start, imovelId, urls, descricao, n), start + n, imovelId)
            == PhotosOf(rows, start, imovelId) + BatchFotos(start, imovelId, urls, descricao, n)
  {
    if n == 0 {
      assert rows + BatchRows(start, imovelId, urls, descricao, 0) == rows;
    } else {
      BatchListed(rows, start, imovelId, urls, descricao, n - 1);
      BatchListedStep(rows, start, imovelId, urls, descricao, n);
    }
  }

  lemma BatchListedStep(rows: map<int, Foto>, start: nat, imovelId: nat, urls: seq<string>, descricao: Option<string>, n: nat)
    requires 0 < n <= |urls|
    requires forall k :: k in rows ==> k < start
    requires PhotosOf(rows + BatchRows(start, imovelId, urls, descricao, n - 1), start + (n - 1), imovelId)
             == PhotosOf(rows, start, imovelId) + BatchFotos(start, imovelId, urls, descricao, n - 1)
    ensures PhotosOf(rows + BatchRows(start, imovelId, urls, descricao, n), start + n, imovelId)
            == PhotosOf(rows, start, imovelId) + BatchFotos(start, imovelId, urls, descricao, n)
  {
    var before := rows + BatchRows(start, imovelId, urls, descricao, n - 1);
    var f := BatchRow(start, imovelId, urls, descricao, n - 1);
    var shown := PhotosOf(rows, start, imovelId) + BatchFotos(start, imovelId, urls, descricao, n - 1);
    BatchRowsNext(rows, start, imovelId, urls, descricao, n, before);
    InsertListed(before, start + (n - 1), f, imovelId, shown);
  }

  /** The batch of n rows is the batch of n - 1 rows and one more key, above
      all the others. */
  lemma BatchRowsNext(rows: map<int, Foto>, start: nat, imovelId: nat, urls: seq<string>, descricao: Option<string>, n: nat,
                      before: map<int, Foto>)
    requires 0 < n <= |urls|
    requires forall k :: k in rows ==> k < start
    requires before == rows + BatchRows(start, imovelId, urls, descricao, n - 1)
    ensures rows + BatchRows(start, imovelId, urls, descricao, n) == before[start + (n - 1) := BatchRow(start, imovelId, urls, descricao, n - 1)]
    ensures forall j :: j in before ==> j < start + (n - 1)
  {
    MergeUpdate(rows, BatchRows(start, imovelId, urls, descricao, n - 1), start + (n - 1), BatchRow(start, imovelId, urls, descricao, n - 1));
    BatchRowsFacts(start, imovelId, urls, descricao, n - 1);
  }

  /** The listing after a batch: the photos before it, then the batch. */
  lemma ListedAfterBatch(t: FotoTable, base: map<int, Foto>, start: nat, imovelId: nat, urls: seq<string>,
                         descricao: Option<string>, n: nat)
    requires n <= |urls|
    requires t.Valid()
    requires forall k :: k in base ==> k < start
    requires t.rows == base + BatchRows(start, imovelId, urls, descricao, n) && t.nextId == start + n
    ensures t.ListByImovel(imovelId) == PhotosOf(base, start, imovelId) + BatchFotos(start, imovelId, urls, descricao, n)
  {
    BatchListed(base, start, imovelId, urls, descricao, n);
  }

  lemma ListingIs(t: FotoTable, imovelId: int)
    requires t.Valid()
    ensures t.ListByImovel(imovelId) == PhotosOf(t.rows, t.nextId, imovelId)
  {
  }

  /** One insert under the next key appends the row to the listing. */
  lemma InsertListed(before: map<int, Foto>, k: nat, f: Foto, imovelId: int, shown: seq<Foto>)
    requires forall j :: j in before ==> j < k
    requires f.imovelId == imovelId
    requires PhotosOf(before, k, imovelId) == shown
    ensures PhotosOf(before[k := f], k + 1, imovelId) == shown + [f]
  {
    PhotosOfInsert(before, k, f, imovelId);
  }

  // ---------------------------------------------------------------------
  // handlers

  /** `getFotos`: the photos of an existing property, by id. */
  method GetFotos(fotos: FotoTable, imoveis: Imoveis.ImovelTable, rawImovelId: Js) returns (r: Response<seq<FotoResponse>>)
    requires fotos.Valid()
    ensures ParseId(rawImovelId).None? ==> r == Reply(400, MsgImovelInvalido)
    ensures ParseId(rawImovelId).Some? && ParseId(rawImovelId).value !in imoveis.rows ==> r == Reply(404, MsgImovelNaoEncontrado)
    ensures ParseId(rawImovelId).Some? && ParseId(rawImovelId).value in imoveis.rows ==>
              r == Response(200, Json(Responses(fotos.ListByImovel(ParseId(rawImovelId).value))))
  {
    var id := ParseId(rawImovelId);
    if id.None? {
      return Reply(400, MsgImovelInvalido);
    }
    if id.value !in imoveis.rows {
      return Reply(404, MsgImovelNaoEncontrado);
    }
    r := Response(200, Json(Responses(fotos.ListByImovel(id.value))));
  }

  /** The insert loop of `createFotoHandler`: one row per file, in order,
      stopping at the first insert that fails; urls[i] is the public url of
      the i-th file. */
  method InsertBatch(fotos: FotoTable, imovelId: nat, files: seq<UploadedFile>, urls: seq<string>,
                     descricao: Option<string>, faults: seq<Option<Failure>>)
    returns (created: nat, novas: seq<FotoResponse>, error: Option<Failure>)
    requires fotos.Valid()
    requires |urls| == |files|
    modifies fotos
    ensures fotos.Valid()
    ensures created == FirstFault(faults, |files|)
    ensures error.None? <==> created == |files|
    ensures error.Some? ==> error == At(faults, created)
    ensures fotos.rows == old(fotos.rows) + BatchRows(old(fotos.nextId), imovelId, urls, descricao, created)
    ensures fotos.nextId == old(fotos.nextId) + created
    ensures novas == BatchResponses(old(fotos.nextId), imovelId, files, urls, descricao, created)
  {
    ghost var start := fotos.nextId;
    ghost var base := fotos.rows;
    created := 0;
    novas := [];
    error := None;
    while created < |files| && error.None?
      invariant fotos.Valid()
      invariant created <= |files|
      invariant forall j :: 0 <= j < created ==> At(faults, j).None?
      invariant error.Some? ==> created < |files| && error == At(faults, created)
      invariant fotos.rows == base + BatchRows(start, imovelId, urls, descricao, created)
      invariant fotos.nextId == start + created
      invariant novas == BatchResponses(start, imovelId, files, urls, descricao, created)
      decreases |files| - created, if error.None? then 1 else 0
    {
      var foto := fotos.Create(imovelId, urls[created], descricao, At(faults, created));
      if foto.Err? {
        error := Some(foto.error);
      } else {
        MergeUpdate(base, BatchRows(start, imovelId, urls, descricao, created), start + created,
                    BatchRow(start, imovelId, urls, descricao, created));
        novas := novas + [MapFotoToResponse(foto.value).(originalName := Some(files[created].originalName),
                                                         size := Some(files[created].size))];
        created := created + 1;
      }
    }
  }

  /** The compensating deletes: each created row is deleted again, and a
      delete that fails is ignored. */
  method Rollback(fotos: FotoTable, imovelId: nat, start: int, created: nat, rollbackFaults: seq<Option<Failure>>)
    requires fotos.Valid()
    requires forall k :: start <= k < start + created ==> k in fotos.rows && fotos.rows[k].imovelId == imovelId
    modifies fotos
    ensures fotos.Valid() && fotos.nextId == old(fotos.nextId)
    ensures fotos.rows == old(fotos.rows) - RolledBack(start, rollbackFaults, created)
  {
    for j := 0 to created
      invariant fotos.Valid() && fotos.nextId == old(fotos.nextId)
      invariant fotos.rows == old(fotos.rows) - RolledBack(start, rollbackFaults, j)
    {
      assert start + j in old(fotos.rows) - RolledBack(start, rollbackFaults, j);
      var ignored := fotos.Delete(imovelId, start + j, At(rollbackFaults, j));
      assert RolledBack(start, rollbackFaults, j + 1)
             == RolledBack(start, rollbackFaults, j) + (if At(rollbackFaults, j).None? then {start + j} else {});
    }
  }

  /** The external-url path of `createFotoHandler` (no file was sent): the
      trimmed url must not be empty, and no quota applies. */
  method AddExternalUrl(fotos: FotoTable, imovelId: nat, url: string, descricao: Option<string>, fault: Option<Failure>)
    returns (r: Response<seq<FotoResponse>>)
    requires fotos.Valid()
    modifies fotos
    ensures fotos.Valid()
    ensures url == "" ==> r == Reply(400, MsgSemFoto) && fotos.rows == old(fotos.rows)
    ensures url != "" && fault.Some? ==> r == ErrorResponse(fault.value) && fotos.rows == old(fotos.rows)
    ensures url != "" && fault.None? ==>
              var f := Foto(old(fotos.nextId), imovelId, url, descricao);
              r == Response(201, Json([MapFotoToResponse(f)])) && fotos.rows == old(fotos.rows)[f.id := f]
  {
    if url == "" {
      return Reply(400, MsgSemFoto);
    }
    var foto := fotos.Create(imovelId, url, descricao, fault);
    if foto.Err? {
      return ErrorResponse(foto.error);
    }
    r := Response(201, Json([MapFotoToResponse(foto.value)]));
  }

  /** The upload path of `createFotoHandler`, for a property that exists:
      the quota counts the photos the property already has plus the files of
      this request. */
  method AddUploads(fotos: FotoTable, disk: Disk, imovelId: nat, up: seq<UploadedFile>, descricao: Option<string>,
                    faults: seq<Option<Failure>>, rollbackFaults: seq<Option<Failure>>, failing: set<string>)
    returns (r: Response<seq<FotoResponse>>)
    requires fotos.Valid()
    modifies fotos, disk
    ensures fotos.Valid()
    ensures |old(fotos.ListByImovel(imovelId))| + |up| > MaxFilesPerProperty ==>
              r == Reply(400, MsgLimite) && fotos.rows == old(fotos.rows)
              && CleanedUp(old(disk.files), disk.files, up, failing)
    ensures |old(fotos.ListByImovel(imovelId))| + |up| <= MaxFilesPerProperty && FirstFault(faults, |up|) == |up| ==>
              var urls := PublicUrls(imovelId, up);
              r == Response(201, Json(BatchResponses(old(fotos.nextId), imovelId, up, urls, descricao, |up|)))
              && fotos.rows == old(fotos.rows) + BatchRows(old(fotos.nextId), imovelId, urls, descricao, |up|)
              && fotos.ListByImovel(imovelId) == old(fotos.ListByImovel(imovelId)) + BatchFotos(old(fotos.nextId), imovelId, urls, descricao, |up|)
              && |fotos.ListByImovel(imovelId)| <= MaxFilesPerProperty
              && disk.files == old(disk.files)
    ensures |old(fotos.ListByImovel(imovelId))| + |up| <= MaxFilesPerProperty && FirstFault(faults, |up|) < |up| ==>
              var k := FirstFault(faults, |up|);
              var urls := PublicUrls(imovelId, up);
              r == ErrorResponse(At(faults, k).value)
              && fotos.rows == (old(fotos.rows) + BatchRows(old(fotos.nextId), imovelId, urls, descricao, k)) - RolledBack(old(fotos.nextId), rollbackFaults, k)
              && ((forall j :: 0 <= j < k ==> At(rollbackFaults, j).None?) ==> fotos.rows == old(fotos.rows))
              && CleanedUp(old(disk.files), disk.files, up, failing)
  {
    var existentes := fotos.ListByImovel(imovelId);
    if |existentes| + |up| > MaxFilesPerProperty {
      disk.DeleteFilesSafely(NonEmptyPaths(PathsOf(up)), failing);
      return Reply(400, MsgLimite);
    }
    r := StoreBatch(fotos, disk, imovelId, up, PublicUrls(imovelId, up), descricao, faults, rollbackFaults, failing);
  }

  /** The inserts of `createFotoHandler` and, when one fails, the cleanup of
      the stored files and the compensating deletes before the error is
      answered. */
  method StoreBatch(fotos: FotoTable, disk: Disk, imovelId: nat, up: seq<UploadedFile>, urls: seq<string>,
                    descricao: Option<string>, faults: seq<Option<Failure>>, rollbackFaults: seq<Option<Failure>>,
                    failing: set<string>)
    returns (r: Response<seq<FotoResponse>>)
    requires fotos.Valid()
    requires |urls| == |up|
    modifies fotos, disk
    ensures fotos.Valid()
    ensures FirstFault(faults, |up|) == |up| ==>
              r == Response(201, Json(BatchResponses(old(fotos.nextId), imovelId, up, urls, descricao, |up|)))
              && fotos.rows == old(fotos.rows) + BatchRows(old(fotos.nextId), imovelId, urls, descricao, |up|)
              && fotos.ListByImovel(imovelId) == old(fotos.ListByImovel(imovelId)) + BatchFotos(old(fotos.nextId), imovelId, urls, descricao, |up|)
              && disk.files == old(disk.files)
    ensures FirstFault(faults, |up|) < |up| ==>
              var k := FirstFault(faults, |up|);
              r == ErrorResponse(At(faults, k).value)
              && fotos.rows == (old(fotos.rows) + BatchRows(old(fotos.nextId), imovelId, urls, descricao, k)) - RolledBack(old(fotos.nextId), rollbackFaults, k)
              && ((forall j :: 0 <= j < k ==> At(rollbackFaults, j).None?) ==> fotos.rows == old(fotos.rows))
              && CleanedUp(old(disk.files), disk.files, up, failing)
  {
    ghost var base := fotos.rows;
    var start := fotos.nextId;
    ListingIs(fotos, imovelId);
    var created, novas, error := InsertBatch(fotos, imovelId, up, urls, descricao, faults);
    if error.None? {
      ListedAfterBatch(fotos, base, start, imovelId, urls, descricao, |up|);
      return Response(201, Json(novas));
    }
    disk.DeleteFilesSafely(NonEmptyPaths(PathsOf(up)), failing);
    UndoBatch(fotos, imovelId, base, start, urls, descricao, created, rollbackFaults);
    r := ErrorResponse(error.value);
  }

  /** The compensating deletes after a failed insert, over the rows the
      batch created. */
  method UndoBatch(fotos: FotoTable, imovelId: nat, ghost base: map<int, Foto>, start: nat, urls: seq<string>,
                   descricao: Option<string>, created: nat, rollbackFaults: seq<Option<Failure>>)
    requires fotos.Valid()
    requires created <= |urls|
    requires forall k :: k in base ==> k < start
    requires fotos.rows == base + BatchRows(start, imovelId, urls, descricao, created)
    modifies fotos
    ensures fotos.Valid()
    ensures fotos.rows == (base + BatchRows(start, imovelId, urls, descricao, created)) - RolledBack(start, rollbackFaults, created)
    ensures (forall j :: 0 <= j < created ==> At(rollbackFaults, j).None?) ==> fotos.rows == base
  {
    BatchRowsFacts(start, imovelId, urls, descricao, created);
    Rollback(fotos, imovelId, start, created, rollbackFaults);
    if forall j :: 0 <= j < created ==> At(rollbackFaults, j).None? {
      RollbackRestores(base, start, imovelId, urls, descricao, created, rollbackFaults);
    }
  }

  /** `createFotoHandler`. The parameters beyond the request are what the
      outside world answers: faults[i] is the outcome of the i-th insert,
      rollbackFaults[j] that of the j-th compensating delete, and failing
      holds the paths whose unlink fails. Stored files are removed again
      whenever the id is bad or the property is missing. */
  method CreateFotoHandler(fotos: FotoTable, disk: Disk, imoveis: Imoveis.ImovelTable,
                           rawImovelId: Js, files: Option<seq<UploadedFile>>, body: map<string, Js>,
                           faults: seq<Option<Failure>>, rollbackFaults: seq<Option<Failure>>, failing: set<string>)
    returns (r: Response<seq<FotoResponse>>)
    requires fotos.Valid()
    modifies fotos, disk
    ensures fotos.Valid()
    ensures ParseId(rawImovelId).None? ==>
              r == Reply(400, MsgImovelInvalido) && fotos.rows == old(fotos.rows)
              && CleanedUp(old(disk.files), disk.files, Uploaded(files), failing)
    ensures ParseId(rawImovelId).Some? && ParseId(rawImovelId).value !in imoveis.rows ==>
              r == Reply(404, MsgImovelNaoEncontrado) && fotos.rows == old(fotos.rows)
              && CleanedUp(old(disk.files), disk.files, Uploaded(files), failing)
    ensures ParseId(rawImovelId).Some? && ParseId(rawImovelId).value in imoveis.rows && Uploaded(files) == [] ==>
              var url := ExternalUrl(body);
              disk.files == old(disk.files)
              && (url == "" ==> r == Reply(400, MsgSemFoto) && fotos.rows == old(fotos.rows))
              && (url != "" && At(faults, 0).Some? ==> r == ErrorResponse(At(faults, 0).value) && fotos.rows == old(fotos.rows))
              && (url != "" && At(faults, 0).None? ==>
                    var f := Foto(old(fotos.nextId), ParseId(rawImovelId).value, url, Descricao(body));
                    r == Response(201, Json([MapFotoToResponse(f)])) && fotos.rows == old(fotos.rows)[f.id := f])
    ensures ParseId(rawImovelId).Some? && ParseId(rawImovelId).value in imoveis.rows && Uploaded(files) != []
            && |old(fotos.ListByImovel(ParseId(rawImovelId).value))| + |Uploaded(files)| > MaxFilesPerProperty ==>
              r == Reply(400, MsgLimite) && fotos.rows == old(fotos.rows)
              && CleanedUp(old(disk.files), disk.files, Uploaded(files), failing)
    ensures ParseId(rawImovelId).Some? && ParseId(rawImovelId).value in imoveis.rows && Uploaded(files) != []
            && |old(fotos.ListByImovel(ParseId(rawImovelId).value))| + |Uploaded(files)| <= MaxFilesPerProperty
            && FirstFault(faults, |Uploaded(files)|) == |Uploaded(files)| ==>
              var id := ParseId(rawImovelId).value;
              var urls := PublicUrls(id, Uploaded(files));
              r == Response(201, Json(BatchResponses(old(fotos.nextId), id, Uploaded(files), urls, Descricao(body), |urls|)))
              && fotos.ListByImovel(id) == old(fotos.ListByImovel(id)) + BatchFotos(old(fotos.nextId), id, urls, Descricao(body), |urls|)
              && |fotos.ListByImovel(id)| <= MaxFilesPerProperty
              && disk.files == old(disk.files)
    ensures ParseId(rawImovelId).Some? && ParseId(rawImovelId).value in imoveis.rows && Uploaded(files) != []
            && |old(fotos.ListByImovel(ParseId(rawImovelId).value))| + |Uploaded(files)| <= MaxFilesPerProperty
            && FirstFault(faults, |Uploaded(files)|) < |Uploaded(files)| ==>
              r == ErrorResponse(At(faults, FirstFault(faults, |Uploaded(files)|)).value)
              && ((forall j :: 0 <= j < FirstFault(faults, |Uploaded(files)|) ==> At(rollbackFaults, j).None?) ==> fotos.rows == old(fotos.rows))
              && CleanedUp(old(disk.files), disk.files, Uploaded(files), failing)
  {
    var up := Uploaded(files);
    var id := ParseId(rawImovelId);
    if id.None? {
      disk.DeleteFilesSafely(NonEmptyPaths(PathsOf(up)), failing);
      return Reply(400, MsgImovelInvalido);
    }
    var imovelId: nat := id.value;
    if imovelId !in imoveis.rows {
      disk.DeleteFilesSafely(NonEmptyPaths(PathsOf(up)), failing);
      return Reply(404, MsgImovelNaoEncontrado);
    }
    var descricao := Descricao(body);
    if up == [] {
      r := AddExternalUrl(fotos, imovelId, ExternalUrl(body), descricao, At(faults, 0));
      return;
    }
    r := AddUploads(fotos, disk, imovelId, up, descricao, faults, rollbackFaults, failing);
  }

  /** What `deleteFotoHandler` answers and leaves behind, with the file of a
      deleted photo's url chosen by fileOf: 400 for a bad id, 404 for a
      missing property or a photo of another property, the delete's error,
      else 204 with the row gone and the chosen file, if any, removed (an
      empty path or a failing unlink is skipped). */
  twostate predicate DeleteAnswered(fotos: FotoTable, disk: Disk, imoveis: Imoveis.ImovelTable,
                                    rawImovelId: Js, rawFotoId: Js, fault: Option<Failure>, failing: set<string>,
                                    fileOf: string -> Option<string>, new r: Response<()>)
    reads fotos, disk, imoveis
  {
    var imovelId := ParseId(rawImovelId);
    var fotoId := ParseId(rawFotoId);
    var kept := fotos.rows == old(fotos.rows) && disk.files == old(disk.files);
    (imovelId.None? || fotoId.None? ==> r == Reply(400, MsgIdsInvalidos) && kept)
    && (imovelId.Some? && fotoId.Some? && imovelId.value !in imoveis.rows ==>
          r == Reply(404, MsgImovelNaoEncontrado) && kept)
    && (imovelId.Some? && fotoId.Some? && imovelId.value in imoveis.rows
        && !(fotoId.value in old(fotos.rows) && old(fotos.rows)[fotoId.value].imovelId == imovelId.value) ==>
          r == Reply(404, MsgFotoNaoEncontrada) && kept)
    && (imovelId.Some? && fotoId.Some? && imovelId.value in imoveis.rows
        && fotoId.value in old(fotos.rows) && old(fotos.rows)[fotoId.value].imovelId == imovelId.value ==>
          var file := fileOf(old(fotos.rows)[fotoId.value].url);
          (fault.Some? ==> r == ErrorResponse(fault.value) && kept)
          && (fault.None? ==>
                r == Response(204, Empty) && fotos.rows == old(fotos.rows) - {fotoId.value}
                && (file.None? ==> disk.files == old(disk.files))
                && (file.Some? ==>
                      disk.files == old(disk.files) - (if file.value in failing || file.value == "" then {} else {file.value}))))
  }

  /** The steps of `deleteFotoHandler`, with the file to remove chosen by
      fileOf. */
  method DeleteFotoWith(fotos: FotoTable, disk: Disk, imoveis: Imoveis.ImovelTable,
                        rawImovelId: Js, rawFotoId: Js, fault: Option<Failure>, failing: set<string>,
                        fileOf: string -> Option<string>)
    returns (r: Response<()>)
    requires fotos.Valid()
    modifies fotos, disk
    ensures fotos.Valid()
    ensures DeleteAnswered(fotos, disk, imoveis, rawImovelId, rawFotoId, fault, failing, fileOf, r)
  {
    var imovelId := ParseId(rawImovelId);
    var fotoId := ParseId(rawFotoId);
    if imovelId.None? || fotoId.None? {
      return Reply(400, MsgIdsInvalidos);
    }
    if imovelId.value !in imoveis.rows {
      return Reply(404, MsgImovelNaoEncontrado);
    }
    var foto := fotos.GetById(fotoId.value);
    if foto.None? || foto.value.imovelId != imovelId.value {
      return Reply(404, MsgFotoNaoEncontrada);
    }
    var removida := fotos.Delete(imovelId.value, fotoId.value, fault);
    if removida.Err? {
      return ErrorResponse(removida.error);
    }
    if !removida.value {
      return Reply(404, MsgFotoNaoEncontrada);
    }
    var file := fileOf(foto.value.url);
    if file.Some? {
      disk.DeleteFilesSafely([file.value], failing);
    }
    r := Response(204, Empty);
  }

  /** `deleteFotoHandler` as written: the file removed is the one
      ToAbsoluteFilePath names, which the `..` of a client-given url can put
      outside the upload root (AbsolutePathEscapesRoot). */
  method DeleteFotoHandler(fotos: FotoTable, disk: Disk, imoveis: Imoveis.ImovelTable,
                           rawImovelId: Js, rawFotoId: Js, fault: Option<Failure>, failing: set<string>)
    returns (r: Response<()>)
    requires fotos.Valid()
    modifies fotos, disk
    ensures fotos.Valid()
    ensures DeleteAnswered(fotos, disk, imoveis, rawImovelId, rawFotoId, fault, failing, ToAbsoluteFilePath, r)
  {
    r := DeleteFotoWith(fotos, disk, imoveis, rawImovelId, rawFotoId, fault, failing, ToAbsoluteFilePath);
  }

  /** `deleteFotoHandler` as intended: the file removed is the one
      SafeAbsoluteFilePath names, so nothing outside the upload root is ever
      touched. */
  method SafeDeleteFotoHandler(fotos: FotoTable, disk: Disk, imoveis: Imoveis.ImovelTable,
                               rawImovelId: Js, rawFotoId: Js, fault: Option<Failure>, failing: set<string>)
    returns (r: Response<()>)
    requires fotos.Valid()
    modifies fotos, disk
    ensures fotos.Valid()
    ensures DeleteAnswered(fotos, disk, imoveis, rawImovelId, rawFotoId, fault, failing, SafeAbsoluteFilePath, r)
    ensures forall p :: p in old(disk.files) && p !in disk.files ==> Under(p, UploadRoot)
  {
    r := DeleteFotoWith(fotos, disk, imoveis, rawImovelId, rawFotoId, fault, failing, SafeAbsoluteFilePath);
  }
}
