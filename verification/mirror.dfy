/** The `/mirror` endpoint: copy a blob from another Blossom server given
    its public URL. The handler is a pure function of the request and of an
    environment that answers for the filesystem, the HTTP client, SHA-256
    and the blob store; the outcome records which of those it consulted. */
module Mirror {
  import opened Optional
  import opened Text
  import opened Hex
  import opened BlobHash

  /** The request body after `json.Decode`; a missing `url` field decodes
      to the empty string. */
  datatype JsonBody = Malformed | Decoded(url: string)

  datatype Request = Request(verb: string, body: JsonBody)

  /** What reading the fetched response body produced. */
  datatype BodyRead = ReadFailed(reason: string) | Bytes(data: seq<Byte>)

  /** What `http.Get` on the source URL produced. */
  datatype Fetch = Unreachable(reason: string) | Responded(status: int, body: BodyRead)

  /** The outside world as the handler sees it. */
  datatype Env = Env(
    opens: string -> bool,                          // fs.Open of a path succeeds
    get: string -> Fetch,                           // http.Get
    sha256: seq<Byte> -> seq<Byte>,                 // crypto/sha256
    store: (string, seq<Byte>) -> Option<string>)   // the StoreBlob hook: error, if any

  /** `BLOSSOM_PATH` (a directory prefix, joined without a separator) and
      `BLOSSOM_URL` (the public base URL). */
  datatype Settings = Settings(blossomPath: string, blossomUrl: string)

  /** A side effect the handler performed, in order. */
  datatype Effect = OpenBlob(path: string) | FetchSource(url: string) | StoreBlob(hash: string)

  /** An `http.Error` reply, or the JSON success body (status 200). */
  datatype Reply = Failed(status: int, message: string) | Mirrored(sha256: string, url: string, size: nat)

  datatype Outcome = Outcome(reply: Reply, effects: seq<Effect>)

  const StatusOK := 200
  const BadRequest := 400
  const MethodNotAllowed := 405
  const InternalServerError := 500
  const BadGateway := 502

  /** The HTTP status the reply is sent with. */
  function StatusOf(r: Reply): (status: int)
    ensures r.Mirrored? ==> status == StatusOK
    ensures r.Failed? ==> status == r.status
  {
    if r.Mirrored? then StatusOK else r.status
  }

  /** Where the mirrored blob is served from. */
  function PublicUrl(cfg: Settings, hash: string): (url: string)
    ensures |url| == |cfg.blossomUrl| + 1 + |hash|
    ensures url[..|cfg.blossomUrl|] == cfg.blossomUrl
    ensures url[|cfg.blossomUrl|] == '/' && url[|cfg.blossomUrl| + 1..] == hash
  {
    cfg.blossomUrl + "/" + hash
  }

  /** The request passes every check made before any I/O: a PUT whose
      JSON body names a source URL with an extractable hash. */
  ghost predicate Admissible(req: Request)
  {
    && req.verb == "PUT"
    && req.body.Decoded?
    && req.body.url != ""
    && ExtractSha256FromUrl(req.body.url) != ""
  }

  /** An admissible request whose blob is not on disk yet: the source
      must be fetched. */
  ghost predicate MustFetch(cfg: Settings, env: Env, req: Request)
  {
    Admissible(req) && !env.opens(cfg.blossomPath + ExtractSha256FromUrl(req.body.url))
  }

  /** The most I/O a request can cause, in the only order it can happen. */
  ghost function Plan(cfg: Settings, req: Request): seq<Effect>
    requires Admissible(req)
  {
    var hash := ExtractSha256FromUrl(req.body.url);
    [OpenBlob(cfg.blossomPath + hash), FetchSource(req.body.url), StoreBlob(hash)]
  }

  /** The source answered 200 with a body whose digest is `hash`. */
  ghost predicate Verified(env: Env, url: string, hash: string)
  {
    && env.get(url).Responded?
    && env.get(url).status == StatusOK
    && env.get(url).body.Bytes?
    && Encode(env.sha256(env.get(url).body.data)) == hash
  }

  /** Download, verify and store a blob known to be absent locally. */
  function FetchAndStore(cfg: Settings, env: Env, url: string, hash: string): (o: Outcome)
  {
    var fetched := [OpenBlob(cfg.blossomPath + hash), FetchSource(url)];
    match env.get(url)
    case Unreachable(reason) =>
      Outcome(Failed(BadGateway, "Failed to fetch source blob: " + reason), fetched)
    case Responded(status, body) =>
      if status != StatusOK then
        Outcome(Failed(BadGateway, "Source server returned " + IntToDecimal(status)), fetched)
      else
        match body
        case ReadFailed(reason) =>
          Outcome(Failed(InternalServerError, "Failed to read blob data: " + reason), fetched)
        case Bytes(data) =>
          if Encode(env.sha256(data)) != hash then
            Outcome(Failed(BadRequest, "Blob hash mismatch"), fetched)
          else
            var stored := fetched + [StoreBlob(hash)];
            match env.store(hash, data)
            case Some(err) =>
              Outcome(Failed(InternalServerError, "Failed to store blob: " + err), stored)
            case None =>
              Outcome(Mirrored(hash, PublicUrl(cfg, hash), |data|), stored)
  }

  /** The `/mirror` handler. */
  function HandleMirror(cfg: Settings, env: Env, req: Request): (o: Outcome)
    // Only the listed statuses are ever produced.
    ensures StatusOf(o.reply) in {StatusOK, BadRequest, MethodNotAllowed, InternalServerError, BadGateway}
    // Validation comes first, in a fixed order, and does no I/O.
    ensures req.verb != "PUT" ==> StatusOf(o.reply) == MethodNotAllowed
    ensures req.verb == "PUT" && !Admissible(req) ==> StatusOf(o.reply) == BadRequest
    ensures !Admissible(req) ==> o.effects == []
    // I/O happens as a prefix of open, fetch, store.
    ensures Admissible(req) ==> 1 <= |o.effects| && o.effects <= Plan(cfg, req)
    // The source is fetched only when the blob is not already on disk,
    // and only verified content is ever stored.
    ensures 2 <= |o.effects| ==> !env.opens(o.effects[0].path)
    ensures |o.effects| == 3 ==> Verified(env, req.body.url, o.effects[2].hash)
    // A success names the hash taken from the source URL and where it is served.
    ensures o.reply.Mirrored? ==>
              && Admissible(req)
              && o.reply.sha256 == ExtractSha256FromUrl(req.body.url)
              && IsSha256Hex(o.reply.sha256)
              && o.reply.url == cfg.blossomUrl + "/" + o.reply.sha256
    // Success exactly when the blob was already present, or was fetched,
    // verified and stored without error; in the latter case the reported
    // size is the fetched length.
    ensures o.reply.Mirrored? <==>
              Admissible(req) &&
              var hash := ExtractSha256FromUrl(req.body.url);
              (env.opens(cfg.blossomPath + hash) ||
               (Verified(env, req.body.url, hash) &&
                env.store(hash, env.get(req.body.url).body.data).None?))
    ensures o.reply.Mirrored? && |o.effects| > 1 ==>
              o.reply.size == |env.get(req.body.url).body.data|
    // A disk hit answers without the size.
    ensures o.reply.Mirrored? && |o.effects| == 1 ==> o.reply.size == 0
    // A blob absent from disk is always fetched, and a success for it went
    // through both the fetch and the store.
    ensures MustFetch(cfg, env, req) ==> 2 <= |o.effects|
    ensures MustFetch(cfg, env, req) && o.reply.Mirrored? ==> o.effects == Plan(cfg, req)
    // Each failure after the fetch has its own status.
    ensures MustFetch(cfg, env, req) && env.get(req.body.url).Unreachable? ==>
              StatusOf(o.reply) == BadGateway
    ensures MustFetch(cfg, env, req) && env.get(req.body.url).Responded?
            && env.get(req.body.url).status != StatusOK ==>
              StatusOf(o.reply) == BadGateway
    ensures MustFetch(cfg, env, req) && env.get(req.body.url).Responded?
            && env.get(req.body.url).status == StatusOK
            && env.get(req.body.url).body.ReadFailed? ==>
              StatusOf(o.reply) == InternalServerError
    ensures MustFetch(cfg, env, req) && Verified(env, req.body.url, ExtractSha256FromUrl(req.body.url))
            && env.store(ExtractSha256FromUrl(req.body.url), env.get(req.body.url).body.data).Some? ==>
              StatusOf(o.reply) == InternalServerError && |o.effects| == 3
  {
    if req.verb != "PUT" then
      Outcome(Failed(MethodNotAllowed, "Method not allowed"), [])
    else if req.body.Malformed? then
      Outcome(Failed(BadRequest, "Invalid JSON body"), [])
    else if req.body.url == "" then
      Outcome(Failed(BadRequest, "Missing source URL"), [])
    else
      var hash := ExtractSha256FromUrl(req.body.url);
      if hash == "" then
        Outcome(Failed(BadRequest, "Cannot extract blob hash from source URL"), [])
      else if env.opens(cfg.blossomPath + hash) then
        Outcome(Mirrored(hash, PublicUrl(cfg, hash), 0), [OpenBlob(cfg.blossomPath + hash)])
      else
        FetchAndStore(cfg, env, req.body.url, hash)
  }

  /** A request rejected by validation gets the same answer whatever the
      filesystem, the network or the store would have done. */
  lemma RejectionIgnoresEnv(cfg: Settings, env1: Env, env2: Env, req: Request)
    requires !Admissible(req)
    ensures HandleMirror(cfg, env1, req) == HandleMirror(cfg, env2, req)
  {
  }

  /** Once a mirror has succeeded and the blob is on disk, repeating the
      request is answered from disk without contacting the source, with the
      same hash and URL. */
  lemma RepeatServedFromDisk(cfg: Settings, env: Env, later: Env, req: Request)
    requires HandleMirror(cfg, env, req).reply.Mirrored?
    requires later.opens(cfg.blossomPath + HandleMirror(cfg, env, req).reply.sha256)
    ensures var first := HandleMirror(cfg, env, req).reply;
            var again := HandleMirror(cfg, later, req);
            && again.reply.Mirrored?
            && again.reply.sha256 == first.sha256
            && again.reply.url == first.url
            && again.effects == [OpenBlob(cfg.blossomPath + first.sha256)]
  {
  }

  /** Fetched content whose digest differs from the requested hash is
      refused with 400 and never stored. */
  lemma TamperedContentRefused(cfg: Settings, env: Env, req: Request, data: seq<Byte>)
    requires Admissible(req)
    requires !env.opens(cfg.blossomPath + ExtractSha256FromUrl(req.body.url))
    requires env.get(req.body.url) == Responded(StatusOK, Bytes(data))
    requires Encode(env.sha256(data)) != ExtractSha256FromUrl(req.body.url)
    ensures HandleMirror(cfg, env, req)
         == Outcome(Failed(BadRequest, "Blob hash mismatch"),
                    [OpenBlob(cfg.blossomPath + ExtractSha256FromUrl(req.body.url)),
                     FetchSource(req.body.url)])
  {
  }
}
