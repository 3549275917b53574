/** The callbacks the photo routes hand to the upload middleware
    (src/routes/fotos.routes.js): where a file goes, what it is called,
    which files are accepted, and how an upload error is answered. */
module FotosRoutes {
  import opened Base
  import opened JsValues
  import opened Parsing
  import opened Paths
  import opened Uploads
  import opened Http

  const MsgImovelInvalido: string := "Identificador de imovel invalido."
  const MsgFormato: string := "Formato de arquivo nao suportado."
  const MsgTamanho: string := "Cada arquivo deve ter no maximo 5MB."
  const MsgQuantidade: string := "Envie no maximo 10 arquivos por requisicao."
  const MsgFalha: string := "Falha ao processar upload."
  const DefaultExtension: string := ".jpg"

  // ---------------------------------------------------------------------
  // destination

  /** `destination`: the directory for an upload to the route's `imovelId`
      (None when the route has none), or the error the upload fails with.
      The raw text, not a parsed id, names the directory. */
  function Destination(imovelId: Option<string>): (r: Result<string, string>)
    ensures r.Err? <==> imovelId.None? || imovelId.value == "" || StringToNumber(imovelId.value).NaN?
    ensures r.Err? ==> r.error == MsgImovelInvalido
    ensures r.Ok? ==> r.value == GetImovelUploadDir(imovelId.value)
  {
    if imovelId.None? || imovelId.value == "" || StringToNumber(imovelId.value).NaN? then Err(MsgImovelInvalido)
    else Ok(GetImovelUploadDir(imovelId.value))
  }

  /** `destination` as intended: the directory named by the id the handlers
      parse from the same route parameter, rendered back as decimal text. */
  function ParsedDestination(imovelId: Option<string>): Result<string, string>
  {
    if imovelId.None? then Err(MsgImovelInvalido)
    else match ParseId(Str(imovelId.value))
      case Some(id) => Ok(GetImovelUploadDir(NatToDecimal(id)))
      case None => Err(MsgImovelInvalido)
  }

  /** A decimal literal is made of digits and at most one dot: no slash. */
  lemma DecimalNoSlash(u: string)
    requires '/' in u
    ensures DecimalValue(u).None?
  {
    var k := IndexOf(u, '.');
    var j :| 0 <= j < |u| && u[j] == '/';
    if j < k {
      assert !IsDigit(u[..k][j]);
    } else {
      assert j > k;
      assert !IsDigit(u[k + 1..][j - k - 1]);
    }
  }

  /** `Number(s)` is NaN for any text with a slash in it. */
  lemma NumberNoSlash(s: string)
    requires '/' in s
    ensures StringToNumber(s).NaN?
  {
    var t := Trim(s);
    TrimKeepsSlash(s);
    assert t != "" && t != "Infinity" && t != "+Infinity" && t != "-Infinity";
    var unsigned := if t[0] == '-' || t[0] == '+' then t[1..] else t;
    if t[0] == '-' || t[0] == '+' {
      var j :| 0 <= j < |t| && t[j] == '/';
      assert j >= 1 && unsigned[j - 1] == '/';
    }
    DecimalNoSlash(unsigned);
  }

  /** Trimming removes whitespace only, so a slash stays. */
  lemma TrimKeepsSlash(s: string)
    requires '/' in s
    ensures '/' in Trim(s)
  {
    var t := Trim(s);
    TrimSpec(s);
    var a := |s| - |TrimStart(s)|;
    var j :| 0 <= j < |s| && s[j] == '/';
    assert !IsWhitespace(s[j]);
    assert a <= j < a + |t|;
    assert t[j - a] == '/';
  }

  /** Every id the destination accepts is one plain path segment, so the
      upload directory is `<uploadRoot>/imoveis/<id>`, inside the root. */
  lemma DestinationInsideRoot(s: string)
    requires Destination(Some(s)).Ok?
    ensures Plain(s)
    ensures Destination(Some(s)).value == UploadRoot + "/imoveis/" + s
    ensures Under(Destination(Some(s)).value, UploadRoot)
  {
    if '/' in s {
      NumberNoSlash(s);
    }
    UploadDirPlain(s);
  }

  lemma NumberOfFraction()
    ensures StringToNumber("1.5") == Finite(1.5)
  {
    assert Trim("1.5") == "1.5";
    assert IndexOf("1.5", '.') == 1;
    assert "1.5"[..1] == "1" && "1.5"[2..] == "5";
  }

  lemma NumberOfNegative()
    ensures StringToNumber("-3") == Finite(-3.0)
  {
    assert Trim("-3") == "-3";
    assert "-3"[1..] == "3";
    assert IndexOf("3", '.') == 1;
  }

  /** The destination only asks for a number: a fractional or negative id
      gets a directory although no handler accepts it. */
  lemma DestinationLooserThanParseId()
    ensures Destination(Some("1.5")).Ok? && ParseId(Str("1.5")).None?
    ensures Destination(Some("-3")).Ok? && ParseId(Str("-3")).None?
  {
    NumberOfFraction();
    NumberOfNegative();
    assert (1.5).Floor == 1;
    assert !IsIntegral(1.5);
  }

  // ---------------------------------------------------------------------
  // filename

  /** The extension a stored file gets: the original's, or `.jpg`. */
  function StoredExtension(originalName: string): string
  {
    if ExtName(originalName) == "" then DefaultExtension else ExtName(originalName)
  }

  /** `filename`: `<timestamp>-<random><ext>`; the clock and the random
      suffix are parameters. */
  function Filename(timestamp: nat, randomPart: string, originalName: string): string
  {
    NatToDecimal(timestamp) + "-" + randomPart + StoredExtension(originalName)
  }

  /** A generated name is one plain path segment, and its own extension is
      the original's (or `.jpg` when the original had none). */
  lemma FilenameFacts(timestamp: nat, randomPart: string, originalName: string)
    requires '/' !in randomPart
    ensures Plain(Filename(timestamp, randomPart, originalName))
    ensures ExtName(Filename(timestamp, randomPart, originalName)) == StoredExtension(originalName)
    ensures ExtName(originalName) == "" ==> ExtName(Filename(timestamp, randomPart, originalName)) == DefaultExtension
  {
    var d := NatToDecimal(timestamp);
    NatToDecimalDigits(timestamp);
    DecimalPlain(timestamp);
    var e := StoredExtension(originalName);
    StoredExtensionShape(originalName);
    var x := d + "-" + randomPart;
    assert x[0] == d[0] && IsDigit(d[0]);
    NoSlashJoined(d, randomPart, e);
    ExtNameOf(x, e);
    assert x + e == Filename(timestamp, randomPart, originalName);
    assert (x + e)[0] == x[0];
  }

  /** A stored extension is a dot and then neither a dot nor a slash. */
  lemma StoredExtensionShape(originalName: string)
    ensures var e := StoredExtension(originalName);
            e != [] && e[0] == '.' && '/' !in e && '.' !in e[1..]
  {
    ExtNameShape(originalName);
    var e := StoredExtension(originalName);
    if ExtName(originalName) == "" {
      assert e == ".jpg" && e[1..] == "jpg";
    }
  }

  /** `<d>-<r><e>` has a slash only where one of its parts has. */
  lemma NoSlashJoined(d: string, r: string, e: string)
    requires '/' !in d && '/' !in r && '/' !in e
    ensures '/' !in d + "-" + r + e
  {
    var x := d + "-" + r;
    forall i | 0 <= i < |x + e|
      ensures (x + e)[i] != '/'
    {
      if i < |d| {
        assert (x + e)[i] == d[i];
      } else if i == |d| {
      } else if i < |x| {
        assert (x + e)[i] == r[i - |d| - 1];
      } else {
        assert (x + e)[i] == e[i - |x|];
      }
    }
  }

  // ---------------------------------------------------------------------
  // file filter and upload errors

  /** `fileFilter`: a file is accepted exactly when its MIME type is one of
      the allowed ones; otherwise the upload fails with the format message. */
  function FileFilter(mimetype: string): (r: Result<bool, string>)
    ensures r.Ok? <==> mimetype in AllowedMimeTypes
    ensures r.Ok? ==> r.value
    ensures r.Err? ==> r.error == MsgFormato
  {
    if mimetype !in AllowedMimeTypes then Err(MsgFormato) else Ok(true)
  }

  /** How the upload middleware ends: no error, an error of its own (with a
      code), or an error raised by one of the callbacks above. */
  datatype UploadError =
    | NoError
    | MulterError(code: string, message: string)
    | OtherError(message: string)

  /** `handleUpload`: None when the chain goes on to the handler, otherwise
      the 400 the client gets. */
  function HandleUpload(e: UploadError): (r: Option<Response<()>>)
    ensures r.None? <==> e.NoError?
    ensures r.Some? ==> r.value.status == 400 && r.value.body.Message?
    ensures e.MulterError? && e.code == "LIMIT_FILE_SIZE" ==> r == Some(Reply(400, MsgTamanho))
    ensures e.MulterError? && e.code == "LIMIT_FILE_COUNT" ==> r == Some(Reply(400, MsgQuantidade))
    ensures e.MulterError? && e.code != "LIMIT_FILE_SIZE" && e.code != "LIMIT_FILE_COUNT" ==> r == Some(Reply(400, e.message))
    ensures e.OtherError? ==> r == Some(Reply(400, if e.message != "" then e.message else MsgFalha))
  {
    match e
    case NoError => None
    case MulterError(code, message) =>
      var text := if code == "LIMIT_FILE_SIZE" then MsgTamanho
                  else if code == "LIMIT_FILE_COUNT" then MsgQuantidade
                  else message;
      Some(Reply(400, text))
    case OtherError(message) => Some(Reply(400, if message != "" then message else MsgFalha))
  }

  /** A rejected destination or file type reaches the client as a 400 with
      the callback's own message. */
  lemma CallbackErrorsReachClient(imovelId: Option<string>, mimetype: string)
    ensures Destination(imovelId).Err? ==> HandleUpload(OtherError(Destination(imovelId).error)) == Some(Reply(400, MsgImovelInvalido))
    ensures FileFilter(mimetype).Err? ==> HandleUpload(OtherError(FileFilter(mimetype).error)) == Some(Reply(400, MsgFormato))
  {
  }
}
