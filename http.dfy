/**
 * The request and response shapes of the cloud-function upload handlers, with the
 * JSON body already decoded into a map and the response body kept as a JSON object.
 */
module Http {
  import opened Wrappers
  import opened Text

  /** `event`: the optional `httpMethod` and the decoded `body` (empty when absent). */
  datatype Request = Request(httpMethod: Option<string>, body: map<string, string>)

  /** A response body: empty, or a JSON object with string values. */
  datatype Body = Empty | Json(fields: map<string, string>)

  datatype Response = Response(statusCode: int, headers: map<string, string>, body: Body, isBase64Encoded: bool)

  /** `event.get('httpMethod', 'POST')`. */
  function MethodOf(req: Request): string {
    req.httpMethod.GetOr("POST")
  }

  /** `body_data.get(key, fallback)`. */
  function Field(body: map<string, string>, key: string, fallback: string): string {
    if key in body then body[key] else fallback
  }

  const PreflightHeaders: map<string, string> := map[
    "Access-Control-Allow-Origin" := "*",
    "Access-Control-Allow-Methods" := "POST, OPTIONS",
    "Access-Control-Allow-Headers" := "Content-Type, X-User-Id",
    "Access-Control-Max-Age" := "86400"]

  const JsonHeaders: map<string, string> := map[
    "Content-Type" := "application/json",
    "Access-Control-Allow-Origin" := "*"]

  /** The answer to a CORS preflight request. */
  const Preflight: Response := Response(200, PreflightHeaders, Empty, false)

  /** A JSON error reply `{"error": message}`. */
  function ErrorReply(status: int, message: string): Response {
    Response(status, JsonHeaders, Json(map["error" := message]), false)
  }

  const MethodNotAllowed: Response := ErrorReply(405, "Method not allowed")

  const ContentRequired: Response := ErrorReply(400, "File content is required")

  const StorageHost: string := "https://storage.example.com/"

  /** `f"https://storage.example.com/{folder}/{file_id}.{extension}"`. */
  function StorageUrl(folder: string, fileId: string, ext: string): string {
    StorageHost + folder + "/" + fileId + "." + ext
  }

  /**
   * A storage URL determines its parts: folders of one length, and extensions without a
   * `.`, are recovered from the URL together with the file id.
   */
  lemma StorageUrlInjective(f1: string, id1: string, e1: string, f2: string, id2: string, e2: string)
    requires |f1| == |f2| && '.' !in e1 && '.' !in e2
    requires StorageUrl(f1, id1, e1) == StorageUrl(f2, id2, e2)
    ensures f1 == f2 && id1 == id2 && e1 == e2
  {
    var p1 := StorageHost + f1 + "/" + id1;
    var p2 := StorageHost + f2 + "/" + id2;
    var u := p1 + ['.'] + e1;
    assert StorageUrl(f1, id1, e1) == u;
    assert StorageUrl(f2, id2, e2) == p2 + ['.'] + e2;
    LastPartOfAppend(p1, '.', e1);
    LastPartOfAppend(p2, '.', e2);
    assert p1 == u[..|p1|] && p2 == u[..|p2|];
    var h := |StorageHost|;
    assert f1 == p1[h..h + |f1|] && f2 == p2[h..h + |f1|];
    assert id1 == p1[h + |f1| + 1..] && id2 == p2[h + |f1| + 1..];
  }
}
