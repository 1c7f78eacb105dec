/** The request handlers of the development server (server.js:12-121). The
    file system, `require` of a package manifest and the two Vue compilers are
    a `Host` the handlers are given; a failure of any of them, or a property
    read on a missing value, makes the request fail. */
module Server {
  import opened Text
  import opened ImportRewriter
  import opened Routes
  import opened ModuleBodies

  /** The `type` query parameter as the query-string parser hands it over:
      missing, given once, or given several times (an array). */
  datatype TypeParam = Absent | Single(value: string) | Repeated(values: seq<string>)

  /** `!query.type`: a missing or empty parameter; an array is truthy. */
  predicate Falsy(t: TypeParam) {
    t.Absent? || t == Single("")
  }

  datatype Request = Request(url: string, typeParam: TypeParam)

  /** The files the handlers read. */
  datatype FileRef =
    | IndexPage                          // ./index.html
    | ProjectFile(rel: string)           // relative to the project directory
    | PackageFile(pkg: string, entry: string)  // `entry` inside node_modules/<pkg>
    | ClientScript                       // node_modules/vite/dist/client/client.js

  /** What the component parser reports: the content of the script block and
      of the template block, when the component has them. */
  datatype Descriptor = Descriptor(script: Option<string>, template: Option<string>)

  datatype Host = Host(
    readFile: FileRef -> Option<string>,
    /** `require('<pkg>/package.json').module`: `None` when the manifest cannot
        be loaded, `Some(None)` when it has no `module` field. */
    packageModule: string -> Option<Option<string>>,
    parseComponent: string -> Descriptor,
    compileTemplate: string -> string)

  datatype ContentType = Html | JavaScript

  datatype Failure =
    | FileNotFound      // readFileSync throws
    | NoManifest        // require throws
    | NoModuleField     // path.resolve is given `undefined`
    | NoScriptBlock     // descriptor.script is null
    | NoTemplateBlock   // descriptor.template is null

  /** A handler's outcome: a body with its type, no body (the router answers
      404), or an exception. Koa's error handler answers a missing file
      (`ENOENT`) with 404 and every other failure with 500. */
  datatype Response = Reply(kind: ContentType, body: string) | NotFound | Error(failure: Failure)

  /** The page with the bootstrap injected (server.js:12-34). */
  function ServeIndex(host: Host): Response {
    match host.readFile(IndexPage)
    case None => Error(FileNotFound)
    case Some(html) => Reply(Html, InjectBootstrap(html))
  }

  /** A file served as JavaScript after the import rewrite (server.js:42-44,
      58-60, 118-120). */
  function ServeRewritten(host: Host, f: FileRef): Response {
    match host.readFile(f)
    case None => Error(FileNotFound)
    case Some(content) => Reply(JavaScript, Rewrite(content))
  }

  /** The entry file named by a package's `module` field (server.js:53-60). */
  function ServePackage(name: string, host: Host): Response {
    match host.packageModule(name)
    case None => Error(NoManifest)
    case Some(None) => Error(NoModuleField)
    case Some(Some(entry)) => ServeRewritten(host, PackageFile(name, entry))
  }

  /** A single-file component, split by the `type` query (server.js:64-89). */
  function ServeComponent(req: Request, host: Host): Response {
    match host.readFile(ProjectFile(Drop1(PathOf(req.url))))
    case None => Error(FileNotFound)
    case Some(source) =>
      var d := host.parseComponent(source);
      if d.script.None? then Error(NoScriptBlock)
      else if Falsy(req.typeParam) then Reply(JavaScript, ScriptModule(d.script.value, req.url))
      else if req.typeParam == Single("template") then
        match d.template
        case None => Error(NoTemplateBlock)
        case Some(t) => Reply(JavaScript, Rewrite(host.compileTemplate(t)))
      else NotFound
  }

  /** A stylesheet wrapped in a module (server.js:92-109). */
  function ServeStylesheet(url: string, host: Host): Response {
    match host.readFile(ProjectFile(Drop1(url)))
    case None => Error(FileNotFound)
    case Some(file) => Reply(JavaScript, CssModule(file))
  }

  /** The response to a GET request. Only the page is HTML; a request no
      route matches, and a component request with a `type` other than
      `template`, gets no body. */
  function Handle(req: Request, host: Host): (r: Response)
    ensures r.Reply? && r.kind == Html <==> PathOf(req.url) == "/" && host.readFile(IndexPage).Some?
    ensures Classify(PathOf(req.url)) == None ==> r == NotFound
    ensures r == NotFound ==>
      Classify(PathOf(req.url)) == None ||
      (Classify(PathOf(req.url)) == Some(Component) && !Falsy(req.typeParam) && req.typeParam != Single("template"))
  {
    var path := PathOf(req.url);
    ClassifyFirstRegistered(path, Index);
    match Classify(path)
    case None => NotFound
    case Some(Index) => ServeIndex(host)
    case Some(Script) => ServeRewritten(host, ProjectFile(Drop1(req.url)))
    case Some(BareModule) => ServePackage(ModuleName(req.url), host)
    case Some(Component) => ServeComponent(req, host)
    case Some(Stylesheet) => ServeStylesheet(req.url, host)
    case Some(Client) => ServeRewritten(host, ClientScript)
  }

  /** The page is served with the bootstrap in place of its first
      `<script`, so the bootstrap's tag becomes the page's first `<script`. */
  lemma PageRequest(req: Request, host: Host, html: string)
    requires PathOf(req.url) == "/" && host.readFile(IndexPage) == Some(html)
    ensures Handle(req, host) == Reply(Html, InjectBootstrap(html))
    ensures forall i :: FirstOccurrence(html, ScriptTag, i) ==>
      FirstOccurrence(Handle(req, host).body, ScriptTag, i + |Lead|)
  {
    ClassifyFirstRegistered("/", Index);
    forall i | FirstOccurrence(html, ScriptTag, i)
      ensures FirstOccurrence(InjectBootstrap(html), ScriptTag, i + |Lead|)
    {
      InjectedScriptRunsFirst(html, i);
    }
  }

  /** A `.js` request is answered with the project file, rewritten; the file
      is looked up with the query still on the URL. */
  lemma ScriptRequest(req: Request, host: Host)
    requires EndsWith(PathOf(req.url), ".js")
    ensures Handle(req, host) == ServeRewritten(host, ProjectFile(Drop1(req.url)))
  {
    ScriptPathsGoToScript(PathOf(req.url));
  }

  /** A redirected import reaches the bare-module handler, which asks for the
      manifest of exactly the imported package, a query included, and serves
      the entry its `module` field names, rewritten; it fails without a
      manifest or without that field. A specifier whose path ends in `.js`
      goes to the script handler instead, which looks for it in the project. */
  lemma RedirectedImportServed(spec: string, t: TypeParam, host: Host)
    ensures !EndsWith(PathOf(ModulesPrefix + spec), ".js") ==>
      Handle(Request(ModulesPrefix + spec, t), host) == ServePackage(spec, host)
    ensures !EndsWith(PathOf(ModulesPrefix + spec), ".js") && host.packageModule(spec).None? ==>
      Handle(Request(ModulesPrefix + spec, t), host) == Error(NoManifest)
    ensures !EndsWith(PathOf(ModulesPrefix + spec), ".js") && host.packageModule(spec) == Some(None) ==>
      Handle(Request(ModulesPrefix + spec, t), host) == Error(NoModuleField)
    ensures forall entry, c ::
      (!EndsWith(PathOf(ModulesPrefix + spec), ".js") && host.packageModule(spec) == Some(Some(entry)) &&
       host.readFile(PackageFile(spec, entry)) == Some(c)) ==>
      Handle(Request(ModulesPrefix + spec, t), host) == Reply(JavaScript, Rewrite(c))
    ensures EndsWith(PathOf(ModulesPrefix + spec), ".js") ==>
      Handle(Request(ModulesPrefix + spec, t), host) == ServeRewritten(host, ProjectFile(Drop1(ModulesPrefix + spec)))
  {
    var path := PathOf(ModulesPrefix + spec);
    ModuleNameUndoesPrefix(spec);
    RedirectedPathShape(spec);
    if EndsWith(path, ".js") {
      ScriptPathsGoToScript(path);
    } else {
      ModulePathsGoToBareModule(path);
    }
  }

  /** The path of a redirected URL is the prefix followed by the specifier's
      own path. */
  lemma RedirectedPathShape(spec: string)
    ensures PathOf(ModulesPrefix + spec) == ModulesPrefix + PathOf(spec)
    ensures StartsWith(PathOf(ModulesPrefix + spec), "/@modules")
  {
    assert forall k :: 0 <= k < |ModulesPrefix| ==> ModulesPrefix[k] != '?';
    PathOfAppend(ModulesPrefix, spec);
    var path := ModulesPrefix + PathOf(spec);
    assert path[..9] == ModulesPrefix[..9];
  }

  /** A versioned script import, ` from 'x.js?v=1'`, is redirected under
      `/@modules/` but served by the script route, with the query on the file
      name: the module handler never sees it. */
  lemma QueriedScriptImport(t: TypeParam, host: Host)
    ensures Handle(Request(ModulesPrefix + "x.js?v=1", t), host) ==
      ServeRewritten(host, ProjectFile("@modules/x.js?v=1"))
  {
    var spec := "x.js?v=1";
    QueriedPath(spec);
    RedirectedImportServed(spec, t, host);
  }

  lemma QueriedPath(spec: string)
    requires spec == "x.js?v=1"
    ensures EndsWith(PathOf(ModulesPrefix + spec), ".js")
    ensures Drop1(ModulesPrefix + spec) == "@modules/x.js?v=1"
  {
    assert (ModulesPrefix + spec)[1..] == "@modules/x.js?v=1";
    assert '?' !in spec[..4] && spec == spec[..4] + "?v=1";
    PathOfAppend(spec[..4], "?v=1");
    RedirectedPathShape(spec);
    assert PathOf(ModulesPrefix + spec) == ModulesPrefix + "x.js";
  }

  /** The request the browser makes for `import { createApp } from 'vue'`
      goes to the package's manifest and serves its entry, rewritten. */
  lemma VueRequest(t: TypeParam, host: Host, c: string)
    requires host.packageModule("vue") == Some(Some("dist/vue.runtime.esm-bundler.js"))
    requires host.readFile(PackageFile("vue", "dist/vue.runtime.esm-bundler.js")) == Some(c)
    ensures Handle(Request(ModulesPrefix + "vue", t), host) == Reply(JavaScript, Rewrite(c))
  {
    var spec := "vue";
    var url := ModulesPrefix + spec;
    assert '?' !in spec;
    PathOfQueryFree(spec);
    RedirectedPathShape(spec);
    assert url[|url| - 1] == 'e';
    assert !EndsWith(PathOf(url), ".js");
    RedirectedImportServed(spec, t, host);
  }

  /** The component path a component request resolves to. */
  predicate ComponentPath(path: string) {
    EndsWith(path, ".vue") && !StartsWith(path, "/@modules")
  }

  /** Without a `type` query a component is served as its script module, and
      the render-function URL that module imports is routed back to the same
      component file. */
  lemma ComponentScriptRequest(req: Request, host: Host, source: string, script: string)
    requires ComponentPath(PathOf(req.url)) && Falsy(req.typeParam)
    requires host.readFile(ProjectFile(Drop1(PathOf(req.url)))) == Some(source)
    requires host.parseComponent(source).script == Some(script)
    ensures Handle(req, host) == Reply(JavaScript, ScriptModule(script, req.url))
    ensures Classify(PathOf(TemplateUrl(req.url))) == Some(Component)
    ensures Drop1(PathOf(TemplateUrl(req.url))) == Drop1(PathOf(req.url))
  {
    ComponentPathsGoToComponent(PathOf(req.url));
    TemplateUrlSamePath(req.url);
  }

  /** With `type=template` a component is served as its compiled template,
      rewritten; a component without a template block fails. */
  lemma ComponentTemplateRequest(req: Request, host: Host, source: string)
    requires ComponentPath(PathOf(req.url)) && req.typeParam == Single("template")
    requires host.readFile(ProjectFile(Drop1(PathOf(req.url)))) == Some(source)
    requires host.parseComponent(source).script.Some?
    ensures host.parseComponent(source).template.None? ==> Handle(req, host) == Error(NoTemplateBlock)
    ensures forall t :: host.parseComponent(source).template == Some(t) ==>
      Handle(req, host) == Reply(JavaScript, Rewrite(host.compileTemplate(t)))
  {
    ComponentPathsGoToComponent(PathOf(req.url));
  }

  /** A component without a script block fails for every `type`, the
      template request included: its script content is read before the
      query is looked at. */
  lemma ComponentWithoutScript(req: Request, host: Host, source: string)
    requires ComponentPath(PathOf(req.url))
    requires host.readFile(ProjectFile(Drop1(PathOf(req.url)))) == Some(source)
    requires host.parseComponent(source).script.None?
    ensures Handle(req, host) == Error(NoScriptBlock)
  {
    ComponentPathsGoToComponent(PathOf(req.url));
  }

  /** Any other truthy `type`, a repeated one included, leaves the body
      unset. */
  lemma ComponentOtherType(req: Request, host: Host, source: string)
    requires ComponentPath(PathOf(req.url))
    requires !Falsy(req.typeParam) && req.typeParam != Single("template")
    requires host.readFile(ProjectFile(Drop1(PathOf(req.url)))) == Some(source)
    requires host.parseComponent(source).script.Some?
    ensures Handle(req, host) == NotFound
  {
    ComponentPathsGoToComponent(PathOf(req.url));
  }

  /** A stylesheet is served as a module embedding its text without line
      feeds. */
  lemma StylesheetRequest(req: Request, host: Host, file: string)
    requires EndsWith(PathOf(req.url), "css") && !StartsWith(PathOf(req.url), "/@modules")
    requires host.readFile(ProjectFile(Drop1(req.url))) == Some(file)
    ensures Handle(req, host) == Reply(JavaScript, CssModule(file))
    ensures '\n' !in file ==> Handle(req, host) == Reply(JavaScript, CssHead + file + CssTail)
  {
    CssPathsGoToStylesheet(PathOf(req.url));
    if '\n' !in file {
      CssEmbedsLineFreeText(file);
    }
  }

  /** `/vite/client` serves the client script of the vite package, rewritten. */
  lemma ClientRequest(req: Request, host: Host)
    requires PathOf(req.url) == "/vite/client"
    ensures Handle(req, host) == ServeRewritten(host, ClientScript)
  {
    ClientPathGoesToClient();
  }
}
