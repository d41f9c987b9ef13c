/** The WebDAV client of the backup feature: URL construction, the per-verb
    status tables, recursive collection creation, the upload retry, and the
    filtering of a PROPFIND multistatus listing.

    The network is abstract. A server is any function from its own state and a
    request to a reply and a next state; every operation threads a `Net` that
    holds that state together with the log of requests sent so far, so a
    contract can say exactly which requests an operation issues. A reply is a
    status with a body, or `NetworkFailure` when `fetch` itself rejects. */
module WebDav {
  import opened Results
  import opened Strings
  import Numbers
  import Sequences

  // ---------------------------------------------------------------- config

  /** `WebDAVConfig`. */
  datatype Config = Config(baseUrl: string, username: string, password: string, remotePath: string)

  /** The constructor: `baseUrl` gets a trailing `/` unless it already has one;
      nothing else changes. */
  function NewClient(config: Config): (c: Config)
    ensures EndsWith(c.baseUrl, "/")
    ensures StartsWith(c.baseUrl, config.baseUrl) && |c.baseUrl| <= |config.baseUrl| + 1
    ensures EndsWith(config.baseUrl, "/") ==> c == config
    ensures c.username == config.username && c.password == config.password
    ensures c.remotePath == config.remotePath
  {
    if EndsWith(config.baseUrl, "/") then config
    else config.(baseUrl := config.baseUrl + "/")
  }

  /** A base URL written with or without its trailing `/` yields the same client. */
  lemma NewClientIgnoresTrailingSlash(config: Config)
    requires !EndsWith(config.baseUrl, "/")
    ensures NewClient(config) == NewClient(config.(baseUrl := config.baseUrl + "/"))
  {
    var s := config.baseUrl + "/";
    assert s[|s| - 1..] == "/";
  }

  /** `normalizePath`: the path with a trailing `/`, added only when missing. */
  function NormalizePath(path: string): (r: string)
    ensures EndsWith(r, "/")
    ensures StartsWith(r, path) && |r| <= |path| + 1
    ensures EndsWith(path, "/") ==> r == path
  {
    if EndsWith(path, "/") then path else path + "/"
  }

  /** `replace(/^\//, '')`: at most one leading `/` is removed. */
  function StripLeadingSlash(s: string): (r: string)
    ensures StartsWith(s, "/") ==> s == "/" + r
    ensures !StartsWith(s, "/") ==> r == s
  {
    if StartsWith(s, "/") then s[1..] else s
  }

  /** The URL of the collection at `path`. */
  function CollectionUrl(c: Config, path: string): string {
    c.baseUrl + StripLeadingSlash(NormalizePath(path))
  }

  /** The URL of the file `name` in the configured remote directory. */
  function FileUrl(c: Config, name: string): string {
    CollectionUrl(c, c.remotePath) + name
  }

  /** `createDirectory`'s parent: the text before the last `/`, and the empty
      string when there is none (`substring(0, -1)` is `""`). */
  function Parent(path: string): (p: string)
    ensures |path| > 0 ==> |p| < |path|
    ensures StartsWith(path, p)
    ensures '/' in path ==> path[|p|] == '/' && '/' !in path[|p| + 1..]
    ensures '/' !in path ==> p == ""
  {
    var k := LastIndexOf(path, '/');
    if k < 0 then "" else path[..k]
  }

  // ---------------------------------------------------------------- listing

  /** One `response` element of a multistatus body, as the DOM lookups see it:
      the text of its `href`, and the texts of `getcontentlength` and
      `getlastmodified` inside its first `propstat`; `None` where the element
      is absent. */
  datatype ResponseElement = ResponseElement(href: Option<string>, contentLength: Option<string>, lastModified: Option<string>)

  /** `BackupFile`; a `size` of `None` stands for `NaN`. */
  datatype BackupFile = BackupFile(name: string, size: Option<int>, lastModified: string)

  /** The entry name: the text after the last `/` of the href. */
  function LastSegment(href: string): (name: string)
    ensures '/' !in name
    ensures EndsWith(href, name)
    ensures '/' in href ==> |name| < |href| && href[|href| - |name| - 1] == '/'
    ensures '/' !in href ==> name == href
  {
    href[LastIndexOf(href, '/') + 1..]
  }

  /** The `backup-*.json` pattern. */
  predicate IsBackupName(name: string) {
    name != "" && StartsWith(name, "backup-") && EndsWith(name, ".json")
  }

  /** The size of a kept entry: `parseInt` of the `getcontentlength` text, with
      `0` when the element is absent or its text is empty. */
  function SizeOf(contentLength: Option<string>): (size: Option<int>)
    ensures contentLength.None? || contentLength == Some("") ==> size == Some(0)
    ensures contentLength.Some? && contentLength.value != "" ==> size == Numbers.ParseInt(contentLength.value)
  {
    match contentLength
    case None => Some(0)
    case Some(text) =>
      if text == "" then ParseZero(); Numbers.ParseInt("0") else Numbers.ParseInt(text)
  }

  lemma ParseZero()
    ensures Numbers.ParseInt("0") == Some(0)
  {
    Numbers.ParsePrinted(0);
    assert Numbers.DecimalString(0) == "0";
  }

  /** The listing entry for one response element, if it is kept. */
  function FileOf(e: ResponseElement): (f: Option<BackupFile>)
    ensures f.Some? <==> e.href.Some? && IsBackupName(LastSegment(e.href.value))
    ensures f.Some? ==> f.value.name == LastSegment(e.href.value)
    ensures f.Some? ==> f.value.size == SizeOf(e.contentLength)
    ensures f.Some? && e.lastModified.None? ==> f.value.lastModified == ""
    ensures f.Some? && e.lastModified.Some? ==> f.value.lastModified == e.lastModified.value
  {
    match e.href
    case None => None
    case Some(href) =>
      var name := LastSegment(href);
      if IsBackupName(name) then Some(BackupFile(name, SizeOf(e.contentLength), e.lastModified.GetOr("")))
      else None
  }

  /** The files `parsePropFindResponse` collects: the kept entries, in response order. */
  function Listing(es: seq<ResponseElement>): (files: seq<BackupFile>)
    ensures |files| <= |es|
  {
    Sequences.FilterMap(es, FileOf)
  }

  /** A file is listed exactly when some response element yields it: its name is
      the last segment of that element's href and matches `backup-*.json`. */
  lemma ListingExactly(es: seq<ResponseElement>, f: BackupFile)
    ensures f in Listing(es) <==> exists i :: 0 <= i < |es| && FileOf(es[i]) == Some(f)
    ensures f in Listing(es) ==> IsBackupName(f.name)
  {
    if f in Listing(es) {
      Sequences.FilterMapSound(es, FileOf, f);
    }
    if exists i :: 0 <= i < |es| && FileOf(es[i]) == Some(f) {
      var i :| 0 <= i < |es| && FileOf(es[i]) == Some(f);
      Sequences.FilterMapComplete(es, FileOf, i);
    }
  }

  /** The listing of a concatenation is the concatenation of the listings, so
      the response order is kept. */
  lemma ListingConcat(a: seq<ResponseElement>, b: seq<ResponseElement>)
    ensures Listing(a + b) == Listing(a) + Listing(b)
  {
    Sequences.FilterMapConcat(a, b, FileOf);
  }

  /** `parsePropFindResponse`'s loop over the response elements. */
  method ParsePropFindResponse(es: seq<ResponseElement>) returns (files: seq<BackupFile>)
    ensures files == Listing(es)
  {
    files := [];
    var i := 0;
    while i < |es|
      invariant 0 <= i <= |es|
      invariant files == Listing(es[..i])
    {
      ListingStep(es, i);
      var kept := FileOf(es[i]);
      if kept.Some? {
        files := files + [kept.value];
      }
      i := i + 1;
    }
    assert es[..|es|] == es;
  }

  /** Extending the scanned prefix by one element appends that element's entry, if any. */
  lemma ListingStep(es: seq<ResponseElement>, i: nat)
    requires i < |es|
    ensures Listing(es[..i + 1]) ==
            Listing(es[..i]) + (if FileOf(es[i]).Some? then [FileOf(es[i]).value] else [])
  {
    Sequences.FilterMapOne(es[i], FileOf);
    assert es[..i + 1] == es[..i] + [es[i]];
    ListingConcat(es[..i], [es[i]]);
  }

  // ---------------------------------------------------------------- network

  datatype Method = Options | PropFind(depth: nat) | MkCol | Put(content: string) | Get | Head

  datatype Request = Request(verb: Method, url: string)

  /** A reply: the status, the body as text, and the body as a parsed
      multistatus document; or a rejected `fetch`. */
  datatype Reply =
    | Response(status: int, body: string, multistatus: seq<ResponseElement>)
    | NetworkFailure

  datatype Exchange<S> = Exchange(reply: Reply, next: S)

  /** A server: from its state and a request to a reply and its next state. */
  type Server<!S> = (S, Request) -> Exchange<S>

  /** The server state together with every request sent so far. */
  datatype Net<S> = Net(state: S, log: seq<Request>)

  datatype Sent<S> = Sent(reply: Reply, net: Net<S>)

  /** One `fetch`. */
  function Send<S>(server: Server<S>, net: Net<S>, req: Request): (s: Sent<S>)
    ensures s.net.log == net.log + [req]
    ensures s.reply == server(net.state, req).reply && s.net.state == server(net.state, req).next
  {
    var x := server(net.state, req);
    Sent(x.reply, Net(x.next, net.log + [req]))
  }

  /** The errors the client throws. */
  datatype DavError =
    | Transport                               // `fetch` rejected
    | MkColFailed(status: int, body: string)  // MKCOL with an unexpected status
    | ParentMissing                           // MKCOL 409 and no parent to create
    | PathMissing                             // MKCOL 404 and no parent to create
    | UploadFailed(status: int, body: string) // PUT with an unexpected status
    | UploadConflict(cause: DavError)         // the retry after PUT 409 threw
    | FileNotFound                            // GET 404
    | DownloadFailed(status: int)             // GET with another status
    | ListFailed(status: int, body: string)   // PROPFIND with an unexpected status
    | FuelExhausted                           // the model's bound on MKCOL re-entries

  /** An operation's outcome together with the network after it. */
  datatype Done<S, T> = Done(result: Result<T, DavError>, net: Net<S>)

  /** The outcome of an operation that never throws. */
  datatype Answer<S> = Answer(value: bool, net: Net<S>)

  const MkColAccepted: set<int> := {201, 204, 405}
  const MkColParentMissing: set<int> := {404, 409}
  const PutAccepted: set<int> := {200, 201, 204}
  const OptionsAccepted: set<int> := {200, 204, 405}
  const PropFindAccepted: set<int> := {207, 200}

  // ---------------------------------------------------------------- operations

  function MkColRequest(c: Config, path: string): Request {
    Request(MkCol, CollectionUrl(c, path))
  }

  function PutRequest(c: Config, content: string, name: string): Request {
    Request(Put(content), FileUrl(c, name))
  }

  /** `createDirectory`. Each time a missing parent has been created the path
      is tried again; `fuel` bounds how often, as a server that always answers
      409 would otherwise keep the client going forever. It only ever returns
      `true` or throws, and it only appends to the request log. */
  function CreateDirectory<S>(server: Server<S>, c: Config, path: string, net: Net<S>, fuel: nat): (d: Done<S, bool>)
    ensures net.log <= d.net.log
    ensures d.result.Ok? ==> d.result.value
    ensures path == "" || path == "/" ==> d == Done(Ok(true), net)
    ensures path != "" && path != "/" ==>
              |d.net.log| > |net.log| && d.net.log[|net.log|] == MkColRequest(c, path)
    decreases fuel, |path|
  {
    if path == "" || path == "/" then Done(Ok(true), net)
    else
      var sent := Send(server, net, MkColRequest(c, path));
      match sent.reply
      case NetworkFailure => Done(Err(Transport), sent.net)
      case Response(status, body, _) =>
        if status in MkColAccepted then Done(Ok(true), sent.net)
        else if status in MkColParentMissing then
          var parent := Parent(path);
          if parent == "" then
            Done(Err(if status == 409 then ParentMissing else PathMissing), sent.net)
          else
            var up := CreateDirectory(server, c, parent, sent.net, fuel);
            if up.result.Err? then up
            else if fuel == 0 then Done(Err(FuelExhausted), up.net)
            else CreateDirectory(server, c, path, up.net, fuel - 1)
        else Done(Err(MkColFailed(status, body)), sent.net)
  }

  /** The reply to `createDirectory`'s own MKCOL, and the network after it. */
  function MkColStep<S>(server: Server<S>, c: Config, path: string, net: Net<S>): Sent<S> {
    Send(server, net, MkColRequest(c, path))
  }

  /** MKCOL answered 201, 204 or 405: success, with no further request. */
  lemma CreateDirectoryAccepted<S>(server: Server<S>, c: Config, path: string, net: Net<S>, fuel: nat)
    requires path != "" && path != "/"
    requires var x := MkColStep(server, c, path, net).reply;
             x.Response? && x.status in MkColAccepted
    ensures CreateDirectory(server, c, path, net, fuel) == Done(Ok(true), MkColStep(server, c, path, net).net)
  {
  }

  /** MKCOL answered 404 or 409 for a path with no parent: the matching error. */
  lemma CreateDirectoryNoParent<S>(server: Server<S>, c: Config, path: string, net: Net<S>, fuel: nat)
    requires path != "" && path != "/" && Parent(path) == ""
    requires var x := MkColStep(server, c, path, net).reply;
             x.Response? && x.status in MkColParentMissing
    ensures var x := MkColStep(server, c, path, net);
            CreateDirectory(server, c, path, net, fuel) ==
            Done(Err(if x.reply.status == 409 then ParentMissing else PathMissing), x.net)
  {
  }

  /** MKCOL answered 404 or 409 for a path with a parent: the parent is
      created first (its MKCOL is the next request unless it is the root), an
      error there is the result, and otherwise the path is tried again. */
  lemma CreateDirectoryRecovers<S>(server: Server<S>, c: Config, path: string, net: Net<S>, fuel: nat)
    requires path != "" && path != "/" && Parent(path) != ""
    requires var x := MkColStep(server, c, path, net).reply;
             x.Response? && x.status in MkColParentMissing
    ensures var after := MkColStep(server, c, path, net).net;
            var up := CreateDirectory(server, c, Parent(path), after, fuel);
            var d := CreateDirectory(server, c, path, net, fuel);
            && (Parent(path) != "/" ==>
                  |d.net.log| > |after.log| && d.net.log[|after.log|] == MkColRequest(c, Parent(path)))
            && (up.result.Err? ==> d == up)
            && (up.result.Ok? && fuel == 0 ==> d == Done(Err(FuelExhausted), up.net))
            && (up.result.Ok? && fuel > 0 ==> d == CreateDirectory(server, c, path, up.net, fuel - 1))
  {
  }

  /** MKCOL answered with any other status: an error carrying it and the body. */
  lemma CreateDirectoryRejected<S>(server: Server<S>, c: Config, path: string, net: Net<S>, fuel: nat)
    requires path != "" && path != "/"
    requires var x := MkColStep(server, c, path, net).reply;
             x.Response? && x.status !in MkColAccepted && x.status !in MkColParentMissing
    ensures var x := MkColStep(server, c, path, net);
            CreateDirectory(server, c, path, net, fuel) ==
            Done(Err(MkColFailed(x.reply.status, x.reply.body)), x.net)
  {
  }

  /** `uploadFile`. The first `createDirectory` is attempted and its outcome
      ignored; a PUT answered 409 gets one more `createDirectory` and one more
      PUT, whose status decides the boolean result. */
  function UploadFile<S>(server: Server<S>, c: Config, content: string, name: string, net: Net<S>, fuel: nat): (d: Done<S, bool>)
    ensures var first := CreateDirectory(server, c, c.remotePath, net, fuel);
            first.net.log + [PutRequest(c, content, name)] <= d.net.log
  {
    var sent := FirstPut(server, c, content, name, net, fuel);
    match sent.reply
    case NetworkFailure => Done(Err(Transport), sent.net)
    case Response(status, body, _) =>
      if status in PutAccepted then Done(Ok(true), sent.net)
      else if status == 409 then
        var again := CreateDirectory(server, c, c.remotePath, sent.net, fuel);
        if again.result.Err? then Done(Err(UploadConflict(again.result.error)), again.net)
        else
          var retry := Send(server, again.net, PutRequest(c, content, name));
          match retry.reply
          case NetworkFailure => Done(Err(UploadConflict(Transport)), retry.net)
          case Response(retryStatus, _, _) => Done(Ok(retryStatus in PutAccepted), retry.net)
      else Done(Err(UploadFailed(status, body)), sent.net)
  }

  /** The directory attempt and the first PUT of an upload. */
  function FirstPut<S>(server: Server<S>, c: Config, content: string, name: string, net: Net<S>, fuel: nat): (s: Sent<S>)
    ensures s.net.log == CreateDirectory(server, c, c.remotePath, net, fuel).net.log + [PutRequest(c, content, name)]
  {
    Send(server, CreateDirectory(server, c, c.remotePath, net, fuel).net, PutRequest(c, content, name))
  }

  /** The first PUT answered 200, 201 or 204: success, with no further request. */
  lemma UploadAccepted<S>(server: Server<S>, c: Config, content: string, name: string, net: Net<S>, fuel: nat)
    requires var x := FirstPut(server, c, content, name, net, fuel).reply;
             x.Response? && x.status in PutAccepted
    ensures UploadFile(server, c, content, name, net, fuel) ==
            Done(Ok(true), FirstPut(server, c, content, name, net, fuel).net)
  {
  }

  /** The first PUT answered 409: exactly one more `createDirectory` and, when
      that does not throw, exactly one more PUT, whose status gives the
      boolean result; a failure on this path is wrapped as a conflict. */
  lemma UploadRetriesOnce<S>(server: Server<S>, c: Config, content: string, name: string, net: Net<S>, fuel: nat)
    requires var x := FirstPut(server, c, content, name, net, fuel).reply;
             x.Response? && x.status == 409
    ensures var after := FirstPut(server, c, content, name, net, fuel).net;
            var again := CreateDirectory(server, c, c.remotePath, after, fuel);
            var d := UploadFile(server, c, content, name, net, fuel);
            && (again.result.Err? ==> d == Done(Err(UploadConflict(again.result.error)), again.net))
            && (again.result.Ok? ==>
                  var y := server(again.net.state, PutRequest(c, content, name));
                  && d.net == Net(y.next, again.net.log + [PutRequest(c, content, name)])
                  && d.result == (if y.reply.NetworkFailure? then Err(UploadConflict(Transport))
                                  else Ok(y.reply.status in PutAccepted)))
  {
  }

  /** The first PUT answered any other status: an error carrying it and the body. */
  lemma UploadRejected<S>(server: Server<S>, c: Config, content: string, name: string, net: Net<S>, fuel: nat)
    requires var x := FirstPut(server, c, content, name, net, fuel).reply;
             x.Response? && x.status !in PutAccepted && x.status != 409
    ensures var x := FirstPut(server, c, content, name, net, fuel);
            UploadFile(server, c, content, name, net, fuel) ==
            Done(Err(UploadFailed(x.reply.status, x.reply.body)), x.net)
  {
  }

  /** `downloadFile`: one GET; the body on 200, and an error otherwise. */
  function DownloadFile<S>(server: Server<S>, c: Config, name: string, net: Net<S>): (d: Done<S, string>)
    ensures d.net.log == net.log + [Request(Get, FileUrl(c, name))]
    ensures var x := server(net.state, Request(Get, FileUrl(c, name)));
            && d.net.state == x.next
            && (d.result.Ok? <==> x.reply.Response? && x.reply.status == 200)
            && (d.result.Ok? ==> d.result.value == x.reply.body)
            && (x.reply.Response? && x.reply.status == 404 ==> d.result == Err(FileNotFound))
            && (x.reply.Response? && x.reply.status != 200 && x.reply.status != 404 ==>
                  d.result == Err(DownloadFailed(x.reply.status)))
            && (x.reply.NetworkFailure? ==> d.result == Err(Transport))
  {
    var sent := Send(server, net, Request(Get, FileUrl(c, name)));
    match sent.reply
    case NetworkFailure => Done(Err(Transport), sent.net)
    case Response(status, body, _) =>
      if status == 200 then Done(Ok(body), sent.net)
      else if status == 404 then Done(Err(FileNotFound), sent.net)
      else Done(Err(DownloadFailed(status)), sent.net)
  }

  /** `fileExists`: one HEAD; true exactly when it is answered 200. */
  function FileExists<S>(server: Server<S>, c: Config, name: string, net: Net<S>): (a: Answer<S>)
    ensures a.net.log == net.log + [Request(Head, FileUrl(c, name))]
    ensures var x := server(net.state, Request(Head, FileUrl(c, name)));
            a.value <==> x.reply.Response? && x.reply.status == 200
  {
    var sent := Send(server, net, Request(Head, FileUrl(c, name)));
    Answer(sent.reply.Response? && sent.reply.status == 200, sent.net)
  }

  /** `listFiles`: one depth-1 PROPFIND of the remote directory. */
  function ListFiles<S>(server: Server<S>, c: Config, net: Net<S>): (d: Done<S, seq<BackupFile>>)
    ensures d.net.log == net.log + [Request(PropFind(1), CollectionUrl(c, c.remotePath))]
    ensures var x := server(net.state, Request(PropFind(1), CollectionUrl(c, c.remotePath)));
            match x.reply
            case NetworkFailure => d.result == Err(Transport)
            case Response(status, body, elements) =>
              && (status == 404 ==> d.result == Ok([]))
              && (status in PropFindAccepted ==> d.result == Ok(Listing(elements)))
              && (status != 404 && status !in PropFindAccepted ==> d.result == Err(ListFailed(status, body)))
  {
    var sent := Send(server, net, Request(PropFind(1), CollectionUrl(c, c.remotePath)));
    match sent.reply
    case NetworkFailure => Done(Err(Transport), sent.net)
    case Response(status, body, elements) =>
      if status == 207 then Done(Ok(Listing(elements)), sent.net)
      else if status == 404 then Done(Ok([]), sent.net)
      else if status == 200 then Done(Ok(Listing(elements)), sent.net)
      else Done(Err(ListFailed(status, body)), sent.net)
  }

  /** `testConnection`: OPTIONS on the base URL, then a depth-0 PROPFIND only
      when OPTIONS was answered with a status it does not accept. */
  function TestConnection<S>(server: Server<S>, c: Config, net: Net<S>): (a: Answer<S>)
    ensures var options := Request(Options, c.baseUrl);
            var x := server(net.state, options);
            if x.reply.Response? && x.reply.status in OptionsAccepted then
              a == Answer(true, Net(x.next, net.log + [options]))
            else if x.reply.NetworkFailure? then
              a == Answer(false, Net(x.next, net.log + [options]))
            else
              var propfind := Request(PropFind(0), c.baseUrl);
              var y := server(x.next, propfind);
              && a.net == Net(y.next, net.log + [options, propfind])
              && (a.value <==> y.reply.Response? && y.reply.status in PropFindAccepted)
  {
    var sent := Send(server, net, Request(Options, c.baseUrl));
    match sent.reply
    case NetworkFailure => Answer(false, sent.net)
    case Response(status, _, _) =>
      if status in OptionsAccepted then Answer(true, sent.net)
      else
        var probe := Send(server, sent.net, Request(PropFind(0), c.baseUrl));
        Answer(probe.reply.Response? && probe.reply.status in PropFindAccepted, probe.net)
  }
}
