/** The response bodies the handlers build around file contents: the page with
    its bootstrap script (server.js:15-31), the package name of a bare-module
    request (server.js:53), the script module of a single-file component
    (server.js:75-80) and the JavaScript module that installs a stylesheet
    (server.js:98-106). */
module ModuleBodies {
  import opened Text
  import opened ImportRewriter
  import opened Routes

  // ---------------------------------------------------------------------
  // index.html
  // ---------------------------------------------------------------------

  const ScriptTag: string := "<script"

  /** Indentation in front of the injected block. */
  const Lead: string := "\n\t    "

  /** The inline script that defines `process`, the mode, the feature flags
      and the port; its tag becomes the page's first `<script`. */
  const InlineScript: string := ScriptTag + ">\n\t      // 注入一个socket客户端\n\t      // 后端的文件变了，通知前端去更新\n\t      window.process = {\n\t        env: {NODE_ENV:'dev'}\n\t\t\t\t}\n\t\t\t\twindow.__MODE__ = 'development'\n\t\t\t\twindow.__DEFINES__ = {\"__VUE_OPTIONS_API__\":true,\"__VUE_PROD_DEVTOOLS__\":false}\n\t\t\t\twindow.__PORT__ = 4000\n\t    </script>"

  /** After the inline script, the tag it displaced is opened again; its
      attributes follow in the page after this whitespace. */
  const Reopen: string := "\n\t    " + ScriptTag + "\n\n\t  "

  /** The replacement text for the page's first `<script`. */
  const Bootstrap: string := Lead + InlineScript + Reopen

  /** The page with its first `<script` replaced by the bootstrap. */
  function InjectBootstrap(html: string): string {
    ReplaceFirst(html, ScriptTag, Bootstrap)
  }

  lemma BootstrapShape()
    ensures OccursAt(Bootstrap, ScriptTag, |Lead|)
    ensures forall m :: 0 <= m < |Lead| ==> Bootstrap[m] !in ScriptTag
  {
    assert Bootstrap == Lead + (InlineScript + Reopen);
    assert (InlineScript + Reopen)[..7] == ScriptTag;
  }

  /** Replacing the first `<script` of a page by a text whose own first
      `<script` at `k` has only non-tag characters before it makes that
      inserted tag the first one of the result. */
  lemma InsertedTagFirst(html: string, i: nat, rep: string, k: nat)
    requires FirstOccurrence(html, ScriptTag, i)
    requires OccursAt(rep, ScriptTag, k)
    requires forall m :: 0 <= m < k ==> rep[m] !in ScriptTag
    ensures FirstOccurrence(html[..i] + rep + html[i + |ScriptTag|..], ScriptTag, i + k)
  {
    var r := html[..i] + rep + html[i + |ScriptTag|..];
    assert r[i..i + |rep|] == rep;
    assert r[i + k..i + k + |ScriptTag|] == rep[k..k + |ScriptTag|];
    forall j | 0 <= j < i + k ensures !OccursAt(r, ScriptTag, j) {
      if j + |ScriptTag| <= i {
        assert !OccursAt(html, ScriptTag, j);
        assert r[j..j + |ScriptTag|] == html[j..j + |ScriptTag|];
      } else if j < i {
        assert r[i] == rep[0];
        StraddlingTag(r, j, i, rep[0], k == 0);
        assert !OccursAt(r, ScriptTag, j);
      } else {
        assert r[j] == rep[j - i];
        assert rep[j - i] !in ScriptTag;
        NoTagAt(r, j);
        assert !OccursAt(r, ScriptTag, j);
      }
    }
  }

  /** A `<script` cannot begin before `i` and reach past it when the
      character at `i` is `<` or not in the tag at all. */
  lemma StraddlingTag(r: string, j: nat, i: nat, c: char, bracket: bool)
    requires j < i < j + |ScriptTag| <= |r| || (j < i < |r| && i < j + |ScriptTag|)
    requires r[i] == c
    requires if bracket then c == '<' else c !in ScriptTag
    ensures !OccursAt(r, ScriptTag, j)
  {
  }

  lemma NoTagAt(r: string, j: nat)
    requires j < |r| && r[j] !in ScriptTag
    ensures !OccursAt(r, ScriptTag, j)
  {
  }

  /** The bootstrap goes where the page's first `<script` was, and its inline
      script becomes the first script of the page; the displaced tag is
      reopened after it and the rest of the page follows unchanged. A page
      without `<script` is served as it is. */
  lemma InjectedScriptRunsFirst(html: string, i: nat)
    requires FirstOccurrence(html, ScriptTag, i)
    ensures InjectBootstrap(html) == html[..i] + Lead + InlineScript + Reopen + html[i + |ScriptTag|..]
    ensures FirstOccurrence(InjectBootstrap(html), ScriptTag, i + |Lead|)
  {
    assert InjectBootstrap(html) == html[..i] + Bootstrap + html[i + |ScriptTag|..];
    BootstrapShape();
    InsertedTagFirst(html, i, Bootstrap, |Lead|);
    Regroup(html[..i], Lead, InlineScript, Reopen, html[i + |ScriptTag|..]);
  }

  lemma Regroup2(a: string, b: string, c: string, d: string)
    ensures a + (b + c) + d == a + b + c + d
  {
  }

  lemma Regroup(a: string, b: string, c: string, d: string, e: string)
    ensures a + (b + c + d) + e == a + b + c + d + e
  {
  }

  lemma PageWithoutScriptUnchanged(html: string)
    requires forall j :: !OccursAt(html, ScriptTag, j)
    ensures InjectBootstrap(html) == html
    ensures forall j :: !OccursAt(InjectBootstrap(html), ScriptTag, j)
  {
  }

  // ---------------------------------------------------------------------
  // /@modules/<name>
  // ---------------------------------------------------------------------

  /** `url.replace('/@modules/', '')`: the package path the module handler
      resolves under node_modules. */
  function ModuleName(url: string): string {
    ReplaceFirst(url, ModulesPrefix, "")
  }

  /** The rewriter's prefix comes off again, and only it: a query stays on the
      name. */
  lemma ModuleNameUndoesPrefix(name: string)
    ensures ModuleName(ModulesPrefix + name) == name
  {
    var url := ModulesPrefix + name;
    assert OccursAt(url, ModulesPrefix, 0);
    assert url[|ModulesPrefix|..] == name;
  }

  /** A redirected import names exactly the package it imported. */
  lemma RedirectedImportNamesPackage(spec: string)
    requires |spec| >= 1 && Redirected(spec)
    requires forall k :: 0 <= k < |spec| ==> !IsQuote(spec[k])
    ensures Rewrite(" from '" + spec + "'") == From + "'" + (ModulesPrefix + spec) + "'"
    ensures ModuleName(ModulesPrefix + spec) == spec
  {
    QuotedTexts(spec);
    LoneClause('\'', spec, '\'');
    ModuleNameUndoesPrefix(spec);
  }

  // ---------------------------------------------------------------------
  // Single-file component, script part
  // ---------------------------------------------------------------------

  const ExportDefault: string := "export default "
  const ScriptBinding: string := "const __script = "

  /** The script block with its first `export default ` turned into a binding. */
  function BindDefault(script: string): string {
    ReplaceFirst(script, ExportDefault, ScriptBinding)
  }

  /** The URL of the render function's module. */
  function TemplateUrl(url: string): string {
    url + "?type=template"
  }

  /** The import of the render function; it is emitted after the rewrite. */
  function TemplateImport(url: string): string {
    "\nimport {render as __render}" + From + "\"" + TemplateUrl(url) + "\""
  }

  const ScriptFooter: string := "\n__script.render = __render\nexport default __script\n\t\t"

  /** The JavaScript module served for a component without a `type` query. */
  function ScriptModule(script: string, url: string): string {
    "\n" + Rewrite(BindDefault(script)) + TemplateImport(url) + ScriptFooter
  }

  /** Only the first `export default ` is rebound; everything after it is
      kept, including any later `export default `. */
  lemma BindDefaultFirstOnly(pre: string, post: string)
    requires forall j :: 0 <= j < |pre| ==> !OccursAt(pre + ExportDefault + post, ExportDefault, j)
    ensures BindDefault(pre + ExportDefault + post) == pre + ScriptBinding + post
  {
    var s := pre + ExportDefault + post;
    assert s[|pre|..|pre| + |ExportDefault|] == ExportDefault;
    assert FirstOccurrence(s, ExportDefault, |pre|);
    assert s[..|pre|] == pre && s[|pre| + |ExportDefault|..] == post;
  }

  /** A script without `export default ` is passed on unchanged, so the module
      never binds `__script`. */
  lemma BindDefaultAbsent(script: string)
    requires forall j :: !OccursAt(script, ExportDefault, j)
    ensures BindDefault(script) == script
  {
  }

  /** Whatever query the component URL carries, the render-function URL has
      the same path, so the router sends it to the same route. */
  lemma {:induction false} TemplateUrlSamePath(url: string)
    ensures PathOf(TemplateUrl(url)) == PathOf(url)
    ensures Classify(PathOf(TemplateUrl(url))) == Classify(PathOf(url))
  {
    if url == [] {
      assert TemplateUrl(url) == "?type=template";
    } else {
      assert TemplateUrl(url)[0] == url[0];
      assert TemplateUrl(url)[1..] == TemplateUrl(url[1..]);
      TemplateUrlSamePath(url[1..]);
    }
  }

  /** The render-function import is kept out of the rewrite on purpose: for an
      absolute component URL the rewriter would redirect it under
      `/@modules/`. */
  lemma TemplateImportWouldBeRedirected(url: string)
    requires |url| >= 2 && url[0] == '/' && url[1] != '/'
    requires forall k :: 0 <= k < |url| ==> !IsQuote(url[k])
    ensures Rewrite(From + "\"" + TemplateUrl(url) + "\"") == " from '/@modules/" + TemplateUrl(url) + "'"
    ensures Rewrite(From + "\"" + TemplateUrl(url) + "\"") != From + "\"" + TemplateUrl(url) + "\""
  {
    var spec := TemplateUrl(url);
    TemplateUrlTexts(url);
    LoneClause('"', spec, '"');
  }

  lemma TemplateUrlTexts(url: string)
    requires |url| >= 2 && url[0] == '/' && url[1] != '/'
    requires forall k :: 0 <= k < |url| ==> !IsQuote(url[k])
    ensures |TemplateUrl(url)| >= 1 && Redirected(TemplateUrl(url))
    ensures forall k :: 0 <= k < |TemplateUrl(url)| ==> !IsQuote(TemplateUrl(url)[k])
    ensures From + "\"" + TemplateUrl(url) + "\"" == From + ['"'] + TemplateUrl(url) + ['"']
    ensures " from '/@modules/" + TemplateUrl(url) + "'" != From + "\"" + TemplateUrl(url) + "\""
  {
    var spec := TemplateUrl(url);
    forall k | 0 <= k < |spec| ensures !IsQuote(spec[k]) {
      if k >= |url| {
        assert spec[k] == "?type=template"[k - |url|];
      }
    }
    assert spec[0] == '/' && spec[1] == url[1];
    assert (" from '/@modules/" + spec + "'")[6] == '\'';
  }

  // ---------------------------------------------------------------------
  // Stylesheets
  // ---------------------------------------------------------------------

  const CssHead: string := "\n\t\t\timport {updateStyle}" + " from '/vite/client'" + "\n      const css = \""
  const CssTail: string := "\"\n      const link = document.createElement('style')\n      link.setAttribute('type', 'text/css')\n      document.head.appendChild(link)\n      link.innerHTML = css\n      export default css\n    "

  /** The module that puts the stylesheet, with its line feeds removed, in a
      `<style>` element. */
  function CssModule(file: string): string {
    CssHead + StripNewlines(file) + CssTail
  }

  /** A stylesheet without line feeds is embedded exactly. */
  lemma CssEmbedsLineFreeText(file: string)
    requires '\n' !in file
    ensures CssModule(file) == CssHead + file + CssTail
  {
    StripNewlinesKeepsLineFree(file);
  }

  /** Every line feed is dropped and every other character kept in place;
      carriage returns, backslashes and double quotes are embedded unescaped,
      so a double quote in the stylesheet ends the string literal early. */
  lemma CssEmbedding(a: string, b: string)
    ensures CssModule(a + ['\n'] + b) == CssHead + StripNewlines(a) + StripNewlines(b) + CssTail
    ensures '"' in a ==> '"' in StripNewlines(a)
    ensures '\r' in a ==> '\r' in StripNewlines(a)
  {
    StripNewlinesDropsLineFeed(a, b);
    assert CssModule(a + ['\n'] + b) == CssHead + (StripNewlines(a) + StripNewlines(b)) + CssTail;
    Regroup2(CssHead, StripNewlines(a), StripNewlines(b), CssTail);
    StripNewlinesKeepsOthers(a, '"');
    StripNewlinesKeepsOthers(a, '\r');
  }

  /** `body{color:red}` is embedded exactly as written. */
  lemma CssExample()
    ensures CssModule("body{color:red}") == CssHead + "body{color:red}" + CssTail
  {
    CssEmbedsLineFreeText("body{color:red}");
  }
}
