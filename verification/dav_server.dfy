/** Servers to run the WebDAV client against: a reference server that keeps a
    set of collections and a map of files, under which `createDirectory` and
    `uploadFile` are proved to reach their goal, and a scripted server that
    answers with a fixed sequence of statuses, for the exact request
    sequences of the recovery paths of `createDirectory` (create the parent,
    then retry) and `uploadFile` (create the directory, then retry the PUT). */
module DavServer {
  import opened Results
  import opened Strings
  import opened WebDav

  // ---------------------------------------------------------------- reference server

  /** The existing collection URLs and the stored files by URL. */
  datatype Store = Store(collections: set<string>, files: map<string, string>)

  /** The collection a resource sits in: its URL up to and including the last
      `/` before the resource's own name. */
  function Container(url: string): string {
    var v := if EndsWith(url, "/") then url[..|url| - 1] else url;
    v[..LastIndexOf(v, '/') + 1]
  }

  function Status(status: int): Reply {
    Response(status, "", [])
  }

  /** MKCOL succeeds exactly when the container exists (405 when the
      collection is already there, 409 when its container is missing); PUT
      stores the content when the container exists; GET and HEAD find stored
      files; OPTIONS is always allowed; PROPFIND answers 207 on a collection,
      with no entries. */
  function Serve(st: Store, req: Request): Exchange<Store> {
    match req.verb
    case MkCol =>
      if req.url in st.collections then Exchange(Status(405), st)
      else if Container(req.url) in st.collections then
        Exchange(Status(201), st.(collections := st.collections + {req.url}))
      else Exchange(Status(409), st)
    case Put(content) =>
      if Container(req.url) in st.collections then
        Exchange(Status(if req.url in st.files then 204 else 201), st.(files := st.files[req.url := content]))
      else Exchange(Status(409), st)
    case Get =>
      if req.url in st.files then Exchange(Response(200, st.files[req.url], []), st)
      else Exchange(Status(404), st)
    case Head =>
      Exchange(Status(if req.url in st.files then 200 else 404), st)
    case Options =>
      Exchange(Status(200), st)
    case PropFind(_) =>
      Exchange(Status(if req.url in st.collections then 207 else 404), st)
  }

  /** Non-empty segments joined by single `/`s, with none at either end. */
  predicate Segments(r: string) {
    && |r| > 0 && r[0] != '/' && r[|r| - 1] != '/'
    && forall i :: 0 < i < |r| && r[i] == '/' ==> r[i - 1] != '/'
  }

  /** A collection path made of non-empty segments, with at most one leading `/`. */
  predicate WellFormedPath(path: string) {
    Segments(StripLeadingSlash(path))
  }

  lemma UrlOfWellFormed(c: Config, path: string)
    requires WellFormedPath(path)
    ensures CollectionUrl(c, path) == c.baseUrl + StripLeadingSlash(path) + "/"
  {
    var r := StripLeadingSlash(path);
    assert path[|path| - 1] == r[|r| - 1];
    assert NormalizePath(path) == path + "/";
    if StartsWith(path, "/") {
      assert (path + "/")[..1] == "/";
      assert StripLeadingSlash(path + "/") == r + "/";
    } else {
      assert (path + "/")[..1] == path[..1];
    }
  }

  /** Cutting segments at their last `/` leaves segments. */
  lemma SegmentsPrefix(r: string)
    requires Segments(r) && '/' in r
    ensures LastIndexOf(r, '/') > 0
    ensures Segments(r[..LastIndexOf(r, '/')])
  {
    var k := LastIndexOf(r, '/');
    var q := r[..k];
    assert r[k] == '/';
    assert k > 0;
    assert q[|q| - 1] != '/';
    forall i | 0 < i < |q| && q[i] == '/'
      ensures q[i - 1] != '/'
    {
      assert r[i] == '/';
    }
  }

  /** `Parent` of a path with a leading `/`. */
  lemma ParentOfRooted(r: string)
    requires |r| > 0 && r[0] != '/'
    ensures Parent("/" + r) == (if '/' in r then "/" + r[..LastIndexOf(r, '/')] else "")
  {
    LastIndexOfConcat("/", r, '/');
    var k := LastIndexOf("/" + r, '/');
    if '/' in r {
      assert ("/" + r)[..k] == "/" + r[..k - 1];
    } else {
      assert k == 0;
    }
  }

  /** The parent of a well-formed path is empty when the path has one segment,
      and otherwise a well-formed path one segment shorter. */
  lemma ParentOfWellFormed(path: string)
    requires WellFormedPath(path)
    ensures var r := StripLeadingSlash(path);
            && (Parent(path) == "" <==> '/' !in r)
            && ('/' in r ==> WellFormedPath(Parent(path))
                             && StripLeadingSlash(Parent(path)) == r[..LastIndexOf(r, '/')])
  {
    var r := StripLeadingSlash(path);
    if '/' in r {
      SegmentsPrefix(r);
    }
    var k := LastIndexOf(r, '/');
    if StartsWith(path, "/") {
      assert path == "/" + r;
      ParentOfRooted(r);
      if '/' in r {
        var p := "/" + r[..k];
        assert p[..1] == "/";
        assert StripLeadingSlash(p) == r[..k];
      }
    } else {
      assert path == r;
      if '/' in r {
        var p := r[..k];
        assert p[..1] == r[..1];
        assert !StartsWith(p, "/");
      }
    }
  }

  /** The container of `base + r + "/"`: cut at the last `/` of `r`, or the
      base itself when `r` has none. */
  lemma ContainerOfSegments(base: string, r: string)
    requires EndsWith(base, "/")
    requires Segments(r)
    ensures Container(base + r + "/") ==
            (if '/' in r then base + r[..LastIndexOf(r, '/')] + "/" else base)
  {
    var v := base + r;
    ContainerOfSlashed(v);
    assert v + "/" == base + r + "/";
    LastIndexOfConcat(base, r, '/');
    if '/' in r {
      CutInside(base, r);
    } else {
      CutAtBase(base, r);
    }
  }

  /** The container of a URL ending with `/` cuts what precedes that `/`. */
  lemma ContainerOfSlashed(v: string)
    ensures Container(v + "/") == v[..LastIndexOf(v, '/') + 1]
  {
    var url := v + "/";
    assert url[|url| - 1..] == "/";
    assert url[..|url| - 1] == v;
  }

  /** Cutting `base + r` just after the last `/` of `r`. */
  lemma CutInside(base: string, r: string)
    requires '/' in r
    ensures (base + r)[..|base| + LastIndexOf(r, '/') + 1] == base + r[..LastIndexOf(r, '/')] + "/"
  {
    var k := LastIndexOf(r, '/');
    assert r[k] == '/';
  }

  /** Cutting `base + r` just after the last `/` of a base that ends with one. */
  lemma CutAtBase(base: string, r: string)
    requires EndsWith(base, "/")
    ensures LastIndexOf(base, '/') == |base| - 1
    ensures (base + r)[..|base|] == base
  {
    assert base[|base| - 1] == '/';
  }

  /** The container of a well-formed path's collection is the collection of
      its parent, or the base URL for a single segment. */
  lemma ContainerOfCollection(c: Config, path: string)
    requires EndsWith(c.baseUrl, "/")
    requires WellFormedPath(path)
    ensures Container(CollectionUrl(c, path)) ==
            (if Parent(path) == "" then c.baseUrl else CollectionUrl(c, Parent(path)))
  {
    var r := StripLeadingSlash(path);
    UrlOfWellFormed(c, path);
    ContainerOfSegments(c.baseUrl, r);
    ParentOfWellFormed(path);
    if '/' in r {
      UrlOfWellFormed(c, Parent(path));
    }
  }

  /** The reference server's answer to MKCOL. */
  lemma ServeMkCol(st: Store, url: string)
    ensures var x := Serve(st, Request(MkCol, url));
            && x.reply.Response?
            && (url in st.collections ==> x.reply.status == 405 && x.next == st)
            && (url !in st.collections && Container(url) in st.collections ==>
                  x.reply.status == 201 && x.next == st.(collections := st.collections + {url}))
            && (url !in st.collections && Container(url) !in st.collections ==>
                  x.reply.status == 409 && x.next == st)
  {
  }

  /** `createDirectory` reported success, `url` is a collection afterwards, no
      collection was lost and no file changed. */
  predicate Created(before: Store, d: Done<Store, bool>, url: string) {
    && d.result == Ok(true)
    && url in d.net.state.collections
    && before.collections <= d.net.state.collections
    && d.net.state.files == before.files
  }

  /** The collection exists or its container does: MKCOL alone finishes the job. */
  lemma CreateDirectoryDirect(c: Config, path: string, net: Net<Store>, fuel: nat)
    requires path != "" && path != "/"
    requires CollectionUrl(c, path) in net.state.collections || Container(CollectionUrl(c, path)) in net.state.collections
    ensures Created(net.state, CreateDirectory(Serve, c, path, net, fuel), CollectionUrl(c, path))
  {
    ServeMkCol(net.state, CollectionUrl(c, path));
    CreateDirectoryAccepted(Serve, c, path, net, fuel);
  }

  /** MKCOL answered 409 and the parent then created: the retry finishes the job. */
  lemma CreateDirectoryViaParent(c: Config, path: string, net: Net<Store>, fuel: nat)
    requires path != "" && path != "/" && Parent(path) != ""
    requires fuel >= 1
    requires CollectionUrl(c, path) !in net.state.collections
    requires Container(CollectionUrl(c, path)) !in net.state.collections
    requires Created(net.state, CreateDirectory(Serve, c, Parent(path), MkColStep(Serve, c, path, net).net, fuel),
                     Container(CollectionUrl(c, path)))
    ensures Created(net.state, CreateDirectory(Serve, c, path, net, fuel), CollectionUrl(c, path))
  {
    var up := CreateDirectory(Serve, c, Parent(path), MkColStep(Serve, c, path, net).net, fuel);
    assert CreateDirectory(Serve, c, path, net, fuel) == CreateDirectory(Serve, c, path, up.net, fuel - 1) by {
      ServeMkCol(net.state, CollectionUrl(c, path));
      CreateDirectoryRecovers(Serve, c, path, net, fuel);
    }
    CreateDirectoryDirect(c, path, up.net, fuel - 1);
  }

  /** Against the reference server, `createDirectory` of a well-formed path
      succeeds whenever the base collection exists and one re-entry is
      allowed: it creates the missing ancestors first, leaves existing
      collections and all files alone, and ends with the path's collection in
      place. */
  lemma {:induction false} CreateDirectoryReachesGoal(c: Config, path: string, net: Net<Store>, fuel: nat)
    requires EndsWith(c.baseUrl, "/")
    requires c.baseUrl in net.state.collections
    requires WellFormedPath(path)
    requires fuel >= 1
    ensures Created(net.state, CreateDirectory(Serve, c, path, net, fuel), CollectionUrl(c, path))
    decreases |path|
  {
    var url := CollectionUrl(c, path);
    var st := net.state;
    if url in st.collections || Container(url) in st.collections {
      CreateDirectoryDirect(c, path, net, fuel);
    } else {
      MissingContainer(c, path, net);
      CreateDirectoryReachesGoal(c, Parent(path), MkColStep(Serve, c, path, net).net, fuel);
      CreateDirectoryViaParent(c, path, net, fuel);
    }
  }

  /** Neither the collection nor its container exists: MKCOL changes nothing,
      and the container is the collection of the parent, a shorter
      well-formed path. */
  lemma MissingContainer(c: Config, path: string, net: Net<Store>)
    requires EndsWith(c.baseUrl, "/")
    requires c.baseUrl in net.state.collections
    requires WellFormedPath(path)
    requires CollectionUrl(c, path) !in net.state.collections
    requires Container(CollectionUrl(c, path)) !in net.state.collections
    ensures MkColStep(Serve, c, path, net).net.state == net.state
    ensures path != "" && path != "/" && Parent(path) != "" && Parent(path) != "/"
    ensures WellFormedPath(Parent(path)) && |Parent(path)| < |path|
    ensures Container(CollectionUrl(c, path)) == CollectionUrl(c, Parent(path))
  {
    assert MkColStep(Serve, c, path, net).net.state == net.state by {
      ServeMkCol(net.state, CollectionUrl(c, path));
    }
    ContainerOfCollection(c, path);
    ParentOfWellFormed(path);
    WellFormedNotRoot(path);
    WellFormedNotRoot(Parent(path));
  }

  /** A well-formed path is neither empty nor the root. */
  lemma WellFormedNotRoot(path: string)
    requires WellFormedPath(path)
    ensures path != "" && path != "/"
  {
    var r := StripLeadingSlash(path);
    if StartsWith(path, "/") {
      assert |path| == |r| + 1;
    } else {
      assert path[..1] != "/";
    }
  }

  /** The reference server's answer to PUT. */
  lemma ServePut(st: Store, content: string, url: string)
    ensures var x := Serve(st, Request(Put(content), url));
            && x.reply.Response?
            && (x.reply.status in PutAccepted <==> Container(url) in st.collections)
            && (Container(url) in st.collections ==>
                  x.next == st.(files := st.files[url := content]))
            && (Container(url) !in st.collections ==> x.reply.status == 409 && x.next == st)
  {
  }

  /** An upload that reports success has stored the content at the file's URL. */
  lemma UploadStoresContent(c: Config, content: string, name: string, net: Net<Store>, fuel: nat)
    ensures var d := UploadFile(Serve, c, content, name, net, fuel);
            d.result == Ok(true) ==>
              FileUrl(c, name) in d.net.state.files && d.net.state.files[FileUrl(c, name)] == content
  {
    var first := CreateDirectory(Serve, c, c.remotePath, net, fuel);
    var url := FileUrl(c, name);
    ServePut(first.net.state, content, url);
    var x := FirstPut(Serve, c, content, name, net, fuel);
    if x.reply.status in PutAccepted {
      UploadAccepted(Serve, c, content, name, net, fuel);
    } else {
      UploadRetriesOnce(Serve, c, content, name, net, fuel);
      var again := CreateDirectory(Serve, c, c.remotePath, x.net, fuel);
      ServePut(again.net.state, content, url);
    }
  }

  /** A downloaded file is what the reference server stored at its URL. */
  lemma DownloadReadsStore(c: Config, name: string, net: Net<Store>)
    requires FileUrl(c, name) in net.state.files
    ensures DownloadFile(Serve, c, name, net).result == Ok(net.state.files[FileUrl(c, name)])
  {
  }

  /** Round trip: after an upload that reports success, downloading the same
      name gives back exactly the uploaded content. */
  lemma UploadThenDownload(c: Config, content: string, name: string, net: Net<Store>, fuel: nat)
    requires UploadFile(Serve, c, content, name, net, fuel).result == Ok(true)
    ensures var d := UploadFile(Serve, c, content, name, net, fuel);
            DownloadFile(Serve, c, name, d.net).result == Ok(content)
  {
    UploadStoresContent(c, content, name, net, fuel);
    DownloadReadsStore(c, name, UploadFile(Serve, c, content, name, net, fuel).net);
  }

  /** Against the reference server, `fileExists` is exactly membership of the
      file's URL among the stored files, and asking changes nothing. */
  lemma ExistsIffStored(c: Config, name: string, net: Net<Store>)
    ensures FileExists(Serve, c, name, net).value <==> FileUrl(c, name) in net.state.files
    ensures FileExists(Serve, c, name, net).net.state == net.state
  {
  }

  /** After an upload that reports success, `fileExists` finds the name. */
  lemma UploadThenExists(c: Config, content: string, name: string, net: Net<Store>, fuel: nat)
    requires UploadFile(Serve, c, content, name, net, fuel).result == Ok(true)
    ensures FileExists(Serve, c, name, UploadFile(Serve, c, content, name, net, fuel).net).value
  {
    UploadStoresContent(c, content, name, net, fuel);
    ExistsIffStored(c, name, UploadFile(Serve, c, content, name, net, fuel).net);
  }

  /** The reference server answers OPTIONS, so `testConnection` succeeds with
      that one request and leaves the server as it was. */
  lemma ConnectionToReference(c: Config, net: Net<Store>)
    ensures TestConnection(Serve, c, net) == Answer(true, Net(net.state, net.log + [Request(Options, c.baseUrl)]))
  {
  }

  /** The empty path and `/` both name the base collection. */
  lemma RootUrl(c: Config, path: string)
    requires path == "" || path == "/"
    ensures CollectionUrl(c, path) == c.baseUrl
  {
    var n := NormalizePath(path);
    assert n == "/" by {
      if path == "" {
        assert !EndsWith(path, "/");
      }
    }
    assert StartsWith(n, "/") && n[1..] == [];
  }

  /** The collection URL of the remote directory ends with `/`, and the
      container of a file URL in it is that collection. */
  lemma ContainerOfFile(c: Config, name: string)
    requires EndsWith(c.baseUrl, "/")
    requires c.remotePath == "" || c.remotePath == "/" || WellFormedPath(c.remotePath)
    requires name != "" && '/' !in name
    ensures c.remotePath == "" || c.remotePath == "/" ==> CollectionUrl(c, c.remotePath) == c.baseUrl
    ensures Container(FileUrl(c, name)) == CollectionUrl(c, c.remotePath)
  {
    var dir := CollectionUrl(c, c.remotePath);
    assert |dir| > 0 && dir[|dir| - 1] == '/' by {
      if c.remotePath == "" || c.remotePath == "/" {
        RootUrl(c, c.remotePath);
      } else {
        UrlOfWellFormed(c, c.remotePath);
      }
    }
    if c.remotePath == "" || c.remotePath == "/" {
      RootUrl(c, c.remotePath);
    }
    ContainerOfName(dir, name);
  }

  /** A name without `/` appended to a collection URL sits in that collection. */
  lemma ContainerOfName(dir: string, name: string)
    requires |dir| > 0 && dir[|dir| - 1] == '/'
    requires name != "" && '/' !in name
    ensures Container(dir + name) == dir
  {
    var url := dir + name;
    assert !EndsWith(url, "/") by {
      assert url[|url| - 1] == name[|name| - 1];
    }
    LastIndexOfConcat(dir, name, '/');
    assert LastIndexOf(dir, '/') == |dir| - 1;
    assert url[..|dir|] == dir;
  }

  /** Against the reference server, an upload into a well-formed remote
      directory under an existing base collection succeeds, however much of
      the directory was missing. */
  lemma UploadSucceeds(c: Config, content: string, name: string, net: Net<Store>, fuel: nat)
    requires EndsWith(c.baseUrl, "/")
    requires c.baseUrl in net.state.collections
    requires c.remotePath == "" || c.remotePath == "/" || WellFormedPath(c.remotePath)
    requires name != "" && '/' !in name
    requires fuel >= 1
    ensures UploadFile(Serve, c, content, name, net, fuel).result == Ok(true)
  {
    ContainerOfFile(c, name);
    var first := CreateDirectory(Serve, c, c.remotePath, net, fuel);
    if c.remotePath != "" && c.remotePath != "/" {
      CreateDirectoryReachesGoal(c, c.remotePath, net, fuel);
    }
    ServePut(first.net.state, content, FileUrl(c, name));
    UploadAccepted(Serve, c, content, name, net, fuel);
  }

  /** `createDirectory` of an empty or root path touches nothing. */
  lemma CreateRootIsFree(c: Config, net: Net<Store>, fuel: nat)
    ensures CreateDirectory(Serve, c, "", net, fuel) == Done(Ok(true), net)
    ensures CreateDirectory(Serve, c, "/", net, fuel) == Done(Ok(true), net)
  {
  }

  // ---------------------------------------------------------------- scripted server

  /** Answers each request with the next status of its script, and fails at
      the network level once the script is used up. */
  function Scripted(script: seq<int>, req: Request): Exchange<seq<int>> {
    if |script| == 0 then Exchange(NetworkFailure, [])
    else Exchange(Status(script[0]), script[1..])
  }

  const Dav := Config("https://dav.example/", "user", "secret", "/a/b")

  /** A server that refuses OPTIONS (501) is probed with a depth-0 PROPFIND,
      and the connection is good exactly when that is answered 207 or 200. */
  lemma ConnectionFallsBackToPropFind(log: seq<Request>, probe: int)
    ensures var options, propfind := Request(Options, Dav.baseUrl), Request(PropFind(0), Dav.baseUrl);
            TestConnection(Scripted, Dav, Net([501, probe], log))
              == Answer(probe == 207 || probe == 200, Net([], log + [options, propfind]))
  {
  }

  lemma ChildUrl()
    ensures CollectionUrl(Dav, "/a/b") == "https://dav.example/a/b/"
  {
    assert NormalizePath("/a/b") == "/a/b/";
    assert StripLeadingSlash("/a/b/") == "a/b/";
  }

  lemma ParentUrl()
    ensures Parent("/a/b") == "/a"
    ensures CollectionUrl(Dav, "/a") == "https://dav.example/a/"
  {
    assert "/a/b"[..3] == "/a/";
    assert LastIndexOf("/a/b", '/') == 2;
    assert NormalizePath("/a") == "/a/";
    assert StripLeadingSlash("/a/") == "a/";
  }

  lemma BackupsUrl(c: Config)
    requires c == Dav.(remotePath := "backups")
    ensures CollectionUrl(c, c.remotePath) == "https://dav.example/backups/"
  {
    var p := c.remotePath;
    assert CollectionUrl(c, p) == c.baseUrl + p + "/" by {
      RelativeUrl(c, p);
      assert p[0] != '/';
    }
    assert c.baseUrl + p + "/" == "https://dav.example/backups/" by {
      assert c.baseUrl == "https://dav.example/" && p == "backups";
    }
  }

  /** The collection URL of a path not ending in `/`: the base, the path
      without its leading `/`, and a closing `/`. */
  lemma RelativeUrl(c: Config, p: string)
    requires |p| > 0 && p[|p| - 1] != '/'
    ensures CollectionUrl(c, p) == c.baseUrl + StripLeadingSlash(p) + "/"
  {
    assert NormalizePath(p) == p + "/";
    if p[0] == '/' {
      assert (p + "/")[1..] == p[1..] + "/";
    }
  }

  /** MKCOL of `/a/b` answered 409, then 201 for the parent and 201 for the
      retried child: success after exactly two more requests, parent first. */
  lemma NestedCreateScenario(net0: Net<seq<int>>)
    requires net0 == Net([409, 201, 201], [])
    ensures CreateDirectory(Scripted, Dav, "/a/b", net0, 1) ==
            Done(Ok(true), Net([], [Request(MkCol, "https://dav.example/a/b/"),
                                    Request(MkCol, "https://dav.example/a/"),
                                    Request(MkCol, "https://dav.example/a/b/")]))
  {
    ParentUrl();
    var child := Request(MkCol, "https://dav.example/a/b/");
    var parent := Request(MkCol, "https://dav.example/a/");
    var net1 := Net([201, 201], [child]);
    var net2 := Net([201], [child, parent]);
    assert CreateDirectory(Scripted, Dav, "/a", net1, 1) == Done(Ok(true), net2) by {
      NestedParentStep([child]);
    }
    assert CreateDirectory(Scripted, Dav, "/a/b", net0, 1) == CreateDirectory(Scripted, Dav, "/a/b", net2, 0) by {
      NestedFirstStep(net0);
      CreateDirectoryRecovers(Scripted, Dav, "/a/b", net0, 1);
    }
    NestedRetryStep([child, parent]);
  }

  /** The child's first MKCOL in the nested scenario, answered 409. */
  lemma NestedFirstStep(net0: Net<seq<int>>)
    requires net0 == Net([409, 201, 201], [])
    ensures MkColStep(Scripted, Dav, "/a/b", net0) ==
            Sent(Status(409), Net([201, 201], [Request(MkCol, "https://dav.example/a/b/")]))
  {
    ChildUrl();
  }

  /** The parent's MKCOL in the nested scenario, answered 201. */
  lemma NestedParentStep(log: seq<Request>)
    ensures CreateDirectory(Scripted, Dav, "/a", Net([201, 201], log), 1) ==
            Done(Ok(true), Net([201], log + [Request(MkCol, "https://dav.example/a/")]))
  {
    ParentUrl();
    var net := Net([201, 201], log);
    assert MkColStep(Scripted, Dav, "/a", net) == Sent(Status(201), Net([201], log + [MkColRequest(Dav, "/a")]));
    CreateDirectoryAccepted(Scripted, Dav, "/a", net, 1);
  }

  /** The retried child's MKCOL in the nested scenario, answered 201. */
  lemma NestedRetryStep(log: seq<Request>)
    ensures CreateDirectory(Scripted, Dav, "/a/b", Net([201], log), 0) ==
            Done(Ok(true), Net([], log + [Request(MkCol, "https://dav.example/a/b/")]))
  {
    ChildUrl();
    var net := Net([201], log);
    assert MkColStep(Scripted, Dav, "/a/b", net) == Sent(Status(201), Net([], log + [MkColRequest(Dav, "/a/b")]));
    CreateDirectoryAccepted(Scripted, Dav, "/a/b", net, 0);
  }

  lemma BackupFileUrl()
    ensures PutRequest(Dav.(remotePath := "backups"), "{}", "b.json") ==
            Request(Put("{}"), "https://dav.example/backups/b.json")
  {
    BackupsUrl(Dav.(remotePath := "backups"));
    assert "https://dav.example/backups/" + "b.json" == "https://dav.example/backups/b.json";
  }

  /** The first attempt of the conflict scenario: MKCOL answered 201, then the PUT answered 409. */
  lemma UploadConflictFirstPut()
    ensures var c := Dav.(remotePath := "backups");
            var put := Request(Put("{}"), "https://dav.example/backups/b.json");
            var mkcol := Request(MkCol, "https://dav.example/backups/");
            FirstPut(Scripted, c, "{}", "b.json", Net([201, 409, 201, 201], []), 1) ==
            Sent(Status(409), Net([201, 201], [mkcol, put]))
  {
    BackupsUrl(Dav.(remotePath := "backups"));
    BackupFileUrl();
    var c := Dav.(remotePath := "backups");
    var net0 := Net([201, 409, 201, 201], []);
    assert MkColStep(Scripted, c, "backups", net0) == Sent(Status(201), Net([409, 201, 201], [MkColRequest(c, "backups")]));
    CreateDirectoryAccepted(Scripted, c, "backups", net0, 1);
  }

  /** The second attempt of the conflict scenario: MKCOL answered 201 again. */
  lemma UploadConflictSecondMkCol(log: seq<Request>)
    ensures var c := Dav.(remotePath := "backups");
            var mkcol := Request(MkCol, "https://dav.example/backups/");
            CreateDirectory(Scripted, c, "backups", Net([201, 201], log), 1) ==
            Done(Ok(true), Net([201], log + [mkcol]))
  {
    BackupsUrl(Dav.(remotePath := "backups"));
    var c := Dav.(remotePath := "backups");
    assert MkColStep(Scripted, c, "backups", Net([201, 201], log)) == Sent(Status(201), Net([201], log + [MkColRequest(c, "backups")]));
    CreateDirectoryAccepted(Scripted, c, "backups", Net([201, 201], log), 1);
  }

  /** MKCOL answered 201, the PUT 409, then 201 for the second MKCOL and 201
      for the second PUT: the upload succeeds after exactly those four requests. */
  lemma UploadConflictScenario()
    ensures var c := Dav.(remotePath := "backups");
            var put := Request(Put("{}"), "https://dav.example/backups/b.json");
            var mkcol := Request(MkCol, "https://dav.example/backups/");
            UploadFile(Scripted, c, "{}", "b.json", Net([201, 409, 201, 201], []), 1) ==
            Done(Ok(true), Net([], [mkcol, put, mkcol, put]))
  {
    var c := Dav.(remotePath := "backups");
    var put := Request(Put("{}"), "https://dav.example/backups/b.json");
    var mkcol := Request(MkCol, "https://dav.example/backups/");
    BackupFileUrl();
    UploadConflictFirstPut();
    UploadConflictSecondMkCol([mkcol, put]);
    UploadRetriesOnce(Scripted, c, "{}", "b.json", Net([201, 409, 201, 201], []), 1);
  }

  /** The reply `server` gives to `req` in state `st`. */
  function ReplyIn<S>(server: Server<S>, st: S, req: Request): Reply {
    server(st, req).reply
  }

  /** `server` refuses the MKCOL of `path` with 409 in every state. */
  ghost predicate RefusesForever<S(!new)>(server: Server<S>, c: Config, path: string) {
    forall st: S ::
      var x := ReplyIn(server, st, MkColRequest(c, path)); x.Response? && x.status == 409
  }

  /** `server` accepts the MKCOL of `path` in every state. */
  ghost predicate AcceptsForever<S(!new)>(server: Server<S>, c: Config, path: string) {
    forall st: S ::
      var x := ReplyIn(server, st, MkColRequest(c, path)); x.Response? && x.status in MkColAccepted
  }

  /** A server that keeps accepting a collection's parent but keeps answering
      409 for the collection itself makes `createDirectory` re-enter itself
      without end; with any bound on re-entries the model reports that the
      bound ran out. */
  lemma EndlessConflict<S(!new)>(server: Server<S>, c: Config, path: string, net: Net<S>, fuel: nat)
    requires path != "" && path != "/" && Parent(path) != "" && Parent(path) != "/"
    requires RefusesForever(server, c, path) && AcceptsForever(server, c, Parent(path))
    ensures CreateDirectory(server, c, path, net, fuel).result == Err(FuelExhausted)
  {
    var k := 0;
    forall n: Net<S> ensures CreateDirectory(server, c, path, n, 0).result == Err(FuelExhausted) {
      ConflictOut(server, c, path, n);
    }
    while k < fuel
      invariant k <= fuel
      invariant forall n: Net<S> :: CreateDirectory(server, c, path, n, k).result == Err(FuelExhausted)
    {
      var k' := k + 1;
      forall n: Net<S> ensures CreateDirectory(server, c, path, n, k').result == Err(FuelExhausted) {
        var next := ConflictRound(server, c, path, n, k');
      }
      k := k';
    }
  }

  /** The last round of the endless conflict: refused, parent accepted, bound gone. */
  lemma ConflictOut<S(!new)>(server: Server<S>, c: Config, path: string, net: Net<S>)
    requires path != "" && path != "/" && Parent(path) != "" && Parent(path) != "/"
    requires RefusesForever(server, c, path) && AcceptsForever(server, c, Parent(path))
    ensures CreateDirectory(server, c, path, net, 0).result == Err(FuelExhausted)
  {
    var after := MkColStep(server, c, path, net).net;
    assert MkColStep(server, c, path, net).reply == ReplyIn(server, net.state, MkColRequest(c, path));
    CreateDirectoryRecovers(server, c, path, net, 0);
    assert MkColStep(server, c, Parent(path), after).reply == ReplyIn(server, after.state, MkColRequest(c, Parent(path)));
    CreateDirectoryAccepted(server, c, Parent(path), after, 0);
  }

  /** One round of the endless conflict: refused, parent accepted, and the path
      tried again with one re-entry fewer. */
  lemma ConflictRound<S(!new)>(server: Server<S>, c: Config, path: string, net: Net<S>, fuel: nat)
    returns (next: Net<S>)
    requires path != "" && path != "/" && Parent(path) != "" && Parent(path) != "/"
    requires RefusesForever(server, c, path) && AcceptsForever(server, c, Parent(path))
    requires fuel > 0
    ensures CreateDirectory(server, c, path, next, fuel - 1).result == Err(FuelExhausted) ==>
              CreateDirectory(server, c, path, net, fuel).result == Err(FuelExhausted)
  {
    var after := MkColStep(server, c, path, net).net;
    next := CreateDirectory(server, c, Parent(path), after, fuel).net;
    assert MkColStep(server, c, path, net).reply == ReplyIn(server, net.state, MkColRequest(c, path));
    CreateDirectoryRecovers(server, c, path, net, fuel);
    assert MkColStep(server, c, Parent(path), after).reply == ReplyIn(server, after.state, MkColRequest(c, Parent(path)));
    CreateDirectoryAccepted(server, c, Parent(path), after, fuel);
  }

  /** An instance: the server that answers 409 for `a/b/` and 201 for `a/`. */
  lemma ChildConflictIsEndless(fuel: nat, log: seq<Request>)
    ensures CreateDirectory(ChildConflict, Dav, "/a/b", Net(0, log), fuel).result == Err(FuelExhausted)
  {
    ChildUrl();
    ParentUrl();
    assert "https://dav.example/a/" != "https://dav.example/a/b/";
    EndlessConflict(ChildConflict, Dav, "/a/b", Net(0, log), fuel);
  }

  /** 409 for the collection `https://dav.example/a/b/`, 201 for anything else. */
  function ChildConflict(st: int, req: Request): Exchange<int> {
    Exchange(Status(if req.url == "https://dav.example/a/b/" then 409 else 201), st)
  }
}
