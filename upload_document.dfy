/** The document upload handler: every file goes to the `documents` folder. */
module UploadDocument {
  import opened Text
  import opened Http

  const DefaultFileName: string := "document.pdf"
  const DefaultExtension: string := "pdf"
  const Folder: string := "documents"

  /**
   * `handler`, with the generated uuid given as `fileId`. OPTIONS is answered as a
   * preflight, other methods than POST are refused, an empty or missing content is
   * rejected, and otherwise the document's URL is returned with the request's name and id.
   */
  function Handler(req: Request, fileId: string): (resp: Response)
    ensures resp.statusCode == 200 || resp.statusCode == 400 || resp.statusCode == 405
    ensures MethodOf(req) == "OPTIONS" <==> resp == Preflight
    ensures resp == MethodNotAllowed <==> MethodOf(req) != "OPTIONS" && MethodOf(req) != "POST"
    ensures resp == ContentRequired <==>
      MethodOf(req) == "POST" && Field(req.body, "fileContent", "") == ""
    ensures resp.statusCode == 200 && resp.body.Json? <==>
      MethodOf(req) == "POST" && Field(req.body, "fileContent", "") != ""
    ensures resp.statusCode == 200 && resp.body.Json? ==>
      var name := Field(req.body, "fileName", DefaultFileName);
      resp.headers == JsonHeaders && !resp.isBase64Encoded &&
      resp.body.fields.Keys == {"url", "fileName", "fileId"} &&
      resp.body.fields["url"] == StorageUrl(Folder, fileId, Extension(name, DefaultExtension)) &&
      resp.body.fields["fileName"] == name &&
      resp.body.fields["fileId"] == fileId
  {
    var httpMethod := MethodOf(req);
    if httpMethod == "OPTIONS" then Preflight
    else if httpMethod != "POST" then MethodNotAllowed
    else
      var fileName := Field(req.body, "fileName", DefaultFileName);
      var fileContent := Field(req.body, "fileContent", "");
      if fileContent == "" then ContentRequired
      else
        var extension := Extension(fileName, DefaultExtension);
        var fileUrl := StorageUrl(Folder, fileId, extension);
        Response(200, JsonHeaders,
                 Json(map["url" := fileUrl, "fileName" := fileName, "fileId" := fileId]),
                 false)
  }

  /**
   * The stored document keeps the uploaded file's extension: the text after the URL's
   * last `.` is the name's extension, or `pdf` when the name has none.
   */
  lemma UrlKeepsExtension(req: Request, fileId: string)
    requires MethodOf(req) == "POST" && Field(req.body, "fileContent", "") != ""
    ensures var name := Field(req.body, "fileName", DefaultFileName);
      LastPart(Handler(req, fileId).body.fields["url"], '.') == Extension(name, DefaultExtension)
  {
    var name := Field(req.body, "fileName", DefaultFileName);
    var ext := Extension(name, DefaultExtension);
    var url := StorageUrl(Folder, fileId, ext);
    assert url == StorageHost + Folder + "/" + fileId + ['.'] + ext;
    LastPartOfAppend(StorageHost + Folder + "/" + fileId, '.', ext);
  }

  /** Distinct ids never share a URL: equal URLs mean equal ids and extensions. */
  lemma UrlDeterminesUpload(req1: Request, id1: string, req2: Request, id2: string)
    requires MethodOf(req1) == "POST" && Field(req1.body, "fileContent", "") != ""
    requires MethodOf(req2) == "POST" && Field(req2.body, "fileContent", "") != ""
    requires Handler(req1, id1).body.fields["url"] == Handler(req2, id2).body.fields["url"]
    ensures id1 == id2
    ensures Extension(Field(req1.body, "fileName", DefaultFileName), DefaultExtension) ==
            Extension(Field(req2.body, "fileName", DefaultFileName), DefaultExtension)
  {
    var e1 := Extension(Field(req1.body, "fileName", DefaultFileName), DefaultExtension);
    var e2 := Extension(Field(req2.body, "fileName", DefaultFileName), DefaultExtension);
    StorageUrlInjective(Folder, id1, e1, Folder, id2, e2);
  }
}
