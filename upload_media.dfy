/** The media upload handler: photos and videos. */
module UploadMedia {
  import opened Text
  import opened Http

  const DefaultFileName: string := "media.jpg"
  const DefaultExtension: string := "jpg"
  const DefaultFileType: string := "image"

  /** The storage folder: `photos` for images, `videos` for anything else. */
  function Folder(fileType: string): (folder: string)
    ensures folder == "photos" <==> fileType == "image"
    ensures folder == "photos" || folder == "videos"
  {
    if fileType == "image" then "photos" else "videos"
  }

  /**
   * `handler`, with the generated uuid given as `fileId`. OPTIONS is answered as a
   * preflight, other methods than POST are refused, an empty or missing content is
   * rejected, and otherwise the file's URL is returned with the request's name, id and type.
   */
  function Handler(req: Request, fileId: string): (resp: Response)
    ensures resp.statusCode == 200 || resp.statusCode == 400 || resp.statusCode == 405
    ensures MethodOf(req) == "OPTIONS" <==> resp == Preflight
    ensures resp == MethodNotAllowed <==> MethodOf(req) != "OPTIONS" && MethodOf(req) != "POST"
    ensures resp == ContentRequired <==>
      MethodOf(req) == "POST" && Field(req.body, "fileContent", "") == ""
    ensures resp.statusCode == 200 && resp.body.Json? <==>
      MethodOf(req) == "POST" && Field(req.body, "fileContent", "") != ""
    ensures resp.statusCode == 200 && resp.body.Json? ==>
      var name := Field(req.body, "fileName", DefaultFileName);
      var fileType := Field(req.body, "fileType", DefaultFileType);
      resp.headers == JsonHeaders && !resp.isBase64Encoded &&
      resp.body.fields.Keys == {"url", "fileName", "fileId", "fileType"} &&
      resp.body.fields["url"] == StorageUrl(Folder(fileType), fileId, Extension(name, DefaultExtension)) &&
      resp.body.fields["fileName"] == name &&
      resp.body.fields["fileId"] == fileId &&
      resp.body.fields["fileType"] == fileType
  {
    var httpMethod := MethodOf(req);
    if httpMethod == "OPTIONS" then Preflight
    else if httpMethod != "POST" then MethodNotAllowed
    else
      var fileName := Field(req.body, "fileName", DefaultFileName);
      var fileContent := Field(req.body, "fileContent", "");
      var fileType := Field(req.body, "fileType", DefaultFileType);
      if fileContent == "" then ContentRequired
      else
        var extension := Extension(fileName, DefaultExtension);
        var fileUrl := StorageUrl(Folder(fileType), fileId, extension);
        Response(200, JsonHeaders,
                 Json(map["url" := fileUrl, "fileName" := fileName, "fileId" := fileId, "fileType" := fileType]),
                 false)
  }

  /**
   * The stored file keeps the uploaded file's extension: the text after the URL's last
   * `.` is the name's extension, or `jpg` when the name has none.
   */
  lemma UrlKeepsExtension(req: Request, fileId: string)
    requires MethodOf(req) == "POST" && Field(req.body, "fileContent", "") != ""
    ensures var name := Field(req.body, "fileName", DefaultFileName);
      LastPart(Handler(req, fileId).body.fields["url"], '.') == Extension(name, DefaultExtension)
  {
    var name := Field(req.body, "fileName", DefaultFileName);
    var fileType := Field(req.body, "fileType", DefaultFileType);
    var ext := Extension(name, DefaultExtension);
    assert '.' !in ext;
    var url := StorageUrl(Folder(fileType), fileId, ext);
    assert url == StorageHost + Folder(fileType) + "/" + fileId + ['.'] + ext;
    LastPartOfAppend(StorageHost + Folder(fileType) + "/" + fileId, '.', ext);
  }

  /**
   * Distinct ids never share a URL: two successful uploads with the same URL have the
   * same id, the same folder and the same extension.
   */
  lemma UrlDeterminesUpload(req1: Request, id1: string, req2: Request, id2: string)
    requires MethodOf(req1) == "POST" && Field(req1.body, "fileContent", "") != ""
    requires MethodOf(req2) == "POST" && Field(req2.body, "fileContent", "") != ""
    requires Handler(req1, id1).body.fields["url"] == Handler(req2, id2).body.fields["url"]
    ensures id1 == id2
    ensures Folder(Field(req1.body, "fileType", DefaultFileType)) == Folder(Field(req2.body, "fileType", DefaultFileType))
    ensures Extension(Field(req1.body, "fileName", DefaultFileName), DefaultExtension) ==
            Extension(Field(req2.body, "fileName", DefaultFileName), DefaultExtension)
  {
    var f1 := Folder(Field(req1.body, "fileType", DefaultFileType));
    var f2 := Folder(Field(req2.body, "fileType", DefaultFileType));
    var e1 := Extension(Field(req1.body, "fileName", DefaultFileName), DefaultExtension);
    var e2 := Extension(Field(req2.body, "fileName", DefaultFileName), DefaultExtension);
    StorageUrlInjective(f1, id1, e1, f2, id2, e2);
  }
}
