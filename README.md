# toy-vite request pipeline in Dafny

toy-vite is a small development server for Vue applications. The browser loads
native ES modules, and the server turns each module request into a module body
the browser can load. This project models the request-time core of
`server.js`:

- **import rewriting** (`rewriteImport`): every `from '<spec>'` clause whose
  specifier does not start with `.` and does not have `/` as its second
  character is redirected to `/@modules/<spec>`.
- **route selection**: six patterns, tried in registration order against the
  path without its query.
- **the handlers**:
  - the page, with a bootstrap script injected in place of its first `<script`;
  - project `.js` files;
  - bare modules resolved through a package's `module` field;
  - single-file components, split into a script module and a compiled-template
    module;
  - stylesheets wrapped in a JavaScript module;
  - the vite client script.

Modules:

- `Text`: the JavaScript string operations the handlers use. These are
  `indexOf`, `replace` with a string pattern, `slice(1)`, `split('?')[0]` and
  the global line-feed removal.
- `ImportRewriter`: the regular expression `/ from ['|"]([^'"]+)['|"]/g`, its
  global scan and the replacement callback. One match is `IsClause`. One
  attempt of the pattern is `MatchPrefix`: the greedy `[^'"]+` with
  backtracking picks the longest clause, falling back to a `|` as the closing
  delimiter. The scan is `Tokens`: leftmost, non-overlapping matches. The
  callback's `s1[0]` and `s1[1]` are read with `CharAt`, where `None` plays
  JavaScript's `undefined`.
- `Routes`: the registered patterns and first-match dispatch.
- `ModuleBodies`: the texts the handlers build around file contents.
- `Server`: `Handle`, the response to one GET request. The file system,
  `require` of a package manifest, the component parser and the template
  compiler are a `Host` value the handlers receive. A read or a property
  access that throws in the source is an `Error` response.

Behaviours of the code a reader may not expect:

- The rewrite is **not idempotent**. A redirected specifier `/@modules/vue` has
  `/` first and `@` second, so a second pass prefixes it again (`NotIdempotent`,
  `RedirectTwice`).
- Absolute specifiers such as `/src/main.js` are redirected
  (`AbsolutePathRedirected`). A bare path such as `a/b`, with `/` second, is
  kept (`SlashSecondKept`).
- In the component script module only the script block goes through the
  rewriter. The appended import of `?type=template` does not, and it must not,
  because the rewriter would redirect it (`TemplateImportWouldBeRedirected`).
- A component without a script block fails every request, the template request
  included: its script content is read before the query is examined
  (`ComponentWithoutScript`). No empty component is synthesized. A missing
  template block fails the template request (`ComponentTemplateRequest`).
- The stylesheet module embeds the text, with every line feed removed, between
  the double quotes of a JavaScript string literal, without escaping
  (`CssEmbedding`). Only for a text without `"`, `\` or carriage returns is
  the default export that text without its line feeds. A `"` ends the literal
  early and a carriage return may not appear in one, so either makes the
  module fail to parse. A `\` is read as an escape, so `.a\:b` is exported
  as `.a:b`. The model states only the embedded text; JavaScript parsing of
  the module is not modelled. The
  stylesheet pattern is `/css$/`, which does not require a dot
  (`CssPathsGoToStylesheet`).
- A `.js` path under `/@modules/` is served by the script route
  (`ModuleScriptIsScript`, `RedirectedImportServed`).
- The render-function import is the component URL with `?type=template`
  appended, its query included (`TemplateUrlSamePath`). For `/App.vue?v=1` it
  is `/App.vue?v=1?type=template`. Node's query-string parser reads that as
  `v` = `1?type=template` with no `type`, so the browser is sent the script
  module again instead of the render function. The parser itself is left out
  (see below), so the model shows only the URL.

## Model

| member | source | states |
|---|---|---|
| `Text.IndexOf` | server.js:15-16 | the position `replace` with a string pattern works at: there is one exactly when the pattern occurs, and it is the leftmost occurrence |
| `Text.Drop1` | server.js:42 | `slice(1)` drops the first character and keeps the rest in order; the empty string stays empty |
| `Text.ReplaceFirst` | server.js:53 | `replace` with a string pattern replaces the leftmost occurrence only and leaves a text without the pattern unchanged |
| `Text.PathOf` | server.js:68 | `split('?')[0]` is a prefix of the URL without `?`, ending at the URL's end or at its first `?` |
| `Text.PathOfAppend` | server.js:68 | the path of a URL whose first part holds no `?` starts with that whole part |
| `Text.PathOfQueryFree` | server.js:68 | a URL without `?` is its own path |
| `Text.StripNewlines` | server.js:100 | `replace(/\n/g, '')` leaves no line feed and keeps every other character with its multiplicity |
| `Text.StripNewlinesConcat` | server.js:100 | line-feed removal distributes over concatenation, so characters keep their order |
| `Text.StripNewlinesKeepsLineFree` | server.js:100 | a text without line feeds is unchanged |
| `Text.StripNewlinesDropsLineFeed` | server.js:100 | one line feed between two texts disappears and both sides are kept |
| `Text.StripNewlinesKeepsOthers` | server.js:100 | every character other than a line feed occurs after the removal exactly when it occurs before |
| `ImportRewriter.IsClause` | server.js:127 | definition of one match: ` from `, a quote or bar character, a run without quotes, and a closing quote or bar character; specified by `MatchPrefix` and `SingleClause` |
| `ImportRewriter.Redirected` | server.js:128 | definition of the callback's test, with `None` for an `undefined` character; specified by `LoneClause`, `OneCharacterRedirected`, `SlashSecondKept` and `DotFirstKept` |
| `ImportRewriter.Replace` | server.js:128-132 | definition of the callback's return value for one piece; specified by `RewriteInPlace` and `LoneClause` |
| `ImportRewriter.Rewrite` | server.js:126-134 | definition: the replacements of the scanned pieces, concatenated; specified by `RewriteInPlace`, `EmitGrowth` and `RewriteIdentityIff` |
| `ImportRewriter.RunEnd` | server.js:127 | the greedy `[^'"]+` run stops at the first quote or at the end |
| `ImportRewriter.LastBar` | server.js:127 | the last bar character in a range, the position backtracking falls back to |
| `ImportRewriter.MatchPrefix` | server.js:127 | one attempt of the pattern yields the longest clause that is a prefix of the text, or reports that no prefix is a clause |
| `ImportRewriter.HeadFollowsMatch` | server.js:127 | the first scanned piece is a plain character exactly when the pattern does not match at the start, and otherwise the clause it matches, with its capture group |
| `ImportRewriter.Tokens` | server.js:127 | the scan's pieces concatenate back to the input |
| `ImportRewriter.TokensFollowMatches` | server.js:127 | every piece of the scan is what one attempt of the pattern yields at the piece's offset (leftmost, longest, non-overlapping) |
| `ImportRewriter.RewriteInPlace` | server.js:126-134 | around every piece the output is the rewritten text before it, its replacement and the rewritten text after it; plain text is copied, a kept clause is copied byte for byte, a redirected one becomes ` from '/@modules/<spec>'` |
| `ImportRewriter.EmitGrowth` | server.js:129 | each redirection lengthens the text by the ten characters of `/@modules/`, and nothing else changes the length |
| `ImportRewriter.RewriteIdentityIff` | server.js:127-133 | the output equals the input if and only if the callback keeps every clause the scan finds |
| `ImportRewriter.IdentityWithoutClauses` | server.js:127 | a text in which no substring matches the pattern is returned unchanged |
| `ImportRewriter.SingleClause` | server.js:127 | a text that is one match scans as that single clause |
| `ImportRewriter.LoneClause` | server.js:127-133 | a lone clause is redirected with single quotes unless its specifier has `.` first or `/` second, and is otherwise kept byte for byte |
| `ImportRewriter.RedirectTwice` | server.js:128-129 | a redirected clause is redirected again by a second pass |
| `ImportRewriter.NotIdempotent` | server.js:126-134 | rewriting ` from 'vue'` twice differs from rewriting it once |
| `ImportRewriter.AbsolutePathRedirected` | server.js:128-129 | an absolute specifier with a non-`/` second character is redirected |
| `ImportRewriter.SlashSecondKept` | server.js:128-131 | a specifier with `/` second is kept, whatever its first character |
| `ImportRewriter.DotFirstKept` | server.js:128-131 | a specifier starting with `.` is kept |
| `ImportRewriter.OneCharacterRedirected` | server.js:128-129 | a one-character specifier other than `.` is redirected, because `s1[1]` is `undefined` |
| `ImportRewriter.BacktrackToBar` | server.js:127 | with no closing quote the engine backtracks and a literal bar character closes the clause |
| `Routes.Matches` | server.js:12-112 | definition of the six route patterns; specified by `ScriptPathsGoToScript` and the other routing lemmas |
| `Routes.Classify` | server.js:12-112 | definition of the route that handles a path; specified by `ClassifyFirstRegistered` |
| `Routes.FirstMatch` | server.js:136 | the router picks the first registered route whose pattern matches, or none |
| `Routes.ClassifyFirstRegistered` | server.js:12-112 | a route handles a path if and only if its pattern matches and no earlier route's does; no route handles it if and only if no pattern matches |
| `Routes.ScriptPathsGoToScript` | server.js:38 | every `.js` path goes to the script route |
| `Routes.ModuleScriptIsScript` | server.js:38-48 | `/@modules/foo.js` goes to the script route, not the module route |
| `Routes.ModulePathsGoToBareModule` | server.js:48 | a `/@modules` path not ending in `.js` goes to the module route |
| `Routes.ComponentPathsGoToComponent` | server.js:64 | a `.vue` path outside `/@modules` goes to the component route |
| `Routes.CssPathsGoToStylesheet` | server.js:92 | a path ending in `css` outside `/@modules` goes to the stylesheet route |
| `Routes.ClientPathGoesToClient` | server.js:112 | `/vite/client` matches none of the earlier patterns and goes to the client route |
| `ModuleBodies.InjectBootstrap` | server.js:15-31 | definition of the page rewrite; specified by `InjectedScriptRunsFirst` and `PageWithoutScriptUnchanged` |
| `ModuleBodies.InsertedTagFirst` | server.js:15-16 | replacing the first `<script` by a text whose own `<script` has only non-tag characters before it makes that tag the first one of the page |
| `ModuleBodies.InjectedScriptRunsFirst` | server.js:15-31 | the bootstrap takes the place of the first `<script`, its inline script's tag becomes the page's first `<script`, the displaced tag is reopened and the rest of the page is unchanged |
| `ModuleBodies.PageWithoutScriptUnchanged` | server.js:15-31 | a page without `<script` gets no bootstrap |
| `ModuleBodies.ModuleName` | server.js:53 | definition of the package name taken from a URL; specified by `ModuleNameUndoesPrefix` |
| `ModuleBodies.ModuleNameUndoesPrefix` | server.js:53 | removing `/@modules/` from a redirected URL gives back exactly what followed it, a query included |
| `ModuleBodies.RedirectedImportNamesPackage` | server.js:53 | the package a bare-module request names is exactly the specifier the rewriter redirected |
| `ModuleBodies.BindDefault` | server.js:76 | definition of the script rebinding; specified by `BindDefaultFirstOnly` and `BindDefaultAbsent` |
| `ModuleBodies.TemplateUrl` | server.js:77 | definition of the render-function URL; specified by `TemplateUrlSamePath` |
| `ModuleBodies.TemplateImport` | server.js:77 | definition of the appended render import; specified by `TemplateImportWouldBeRedirected` |
| `ModuleBodies.ScriptModule` | server.js:75-80 | definition of the component's script module; specified by `TemplateUrlSamePath`, `TemplateImportWouldBeRedirected` and `Server.ComponentScriptRequest` |
| `ModuleBodies.BindDefaultFirstOnly` | server.js:76 | only the first `export default ` becomes `const __script = `; the rest of the script is kept |
| `ModuleBodies.BindDefaultAbsent` | server.js:76 | a script without `export default ` is passed on unchanged |
| `ModuleBodies.TemplateUrlSamePath` | server.js:77 | the render-function URL has the component URL's path, so it reaches the same route |
| `ModuleBodies.TemplateImportWouldBeRedirected` | server.js:75-80 | the appended template import, if it were rewritten, would be redirected under `/@modules/` |
| `ModuleBodies.CssModule` | server.js:98-106 | definition of the stylesheet module; specified by `CssEmbedsLineFreeText` and `CssEmbedding` |
| `ModuleBodies.CssEmbedsLineFreeText` | server.js:98-106 | a stylesheet without line feeds is embedded exactly |
| `ModuleBodies.CssEmbedding` | server.js:100 | line feeds are dropped; carriage returns and double quotes stay in the embedded literal, with no escaping |
| `ModuleBodies.CssExample` | server.js:98-106 | `body{color:red}` is embedded exactly as written |
| `Server.ServeIndex` | server.js:12-34 | definition of the page handler; specified by `PageRequest` |
| `Server.ServeRewritten` | server.js:42-44 | definition of a file served rewritten, also at lines 58-60 and 118-120; specified by `ScriptRequest`, `RedirectedImportServed` and `ClientRequest` |
| `Server.ServePackage` | server.js:53-60 | definition of the bare-module handler; specified by `RedirectedImportServed` and `VueRequest` |
| `Server.ServeComponent` | server.js:64-89 | definition of the component handler; specified by `ComponentScriptRequest`, `ComponentTemplateRequest`, `ComponentWithoutScript` and `ComponentOtherType` |
| `Server.ServeStylesheet` | server.js:92-109 | definition of the stylesheet handler; specified by `StylesheetRequest` |
| `Server.Falsy` | server.js:72 | definition of `!query.type`; specified by `ComponentScriptRequest` and `ComponentOtherType` |
| `Server.Handle` | server.js:12-121 | only the page is HTML; an unmatched path gets no body; no body is set only for unmatched paths and for components with a `type` other than `template` |
| `Server.PageRequest` | server.js:12-34 | `/` serves the page with the bootstrap's tag as its first `<script` |
| `Server.ScriptRequest` | server.js:38-45 | a `.js` request serves the project file with the query on its name, rewritten |
| `Server.RedirectedImportServed` | server.js:38-61 | for every specifier, a query included: a redirected URL whose path does not end in `.js` reaches the module handler for exactly the imported package, query and all, is answered with the entry the manifest's `module` field names, rewritten, and fails without a manifest or without that field; one whose path ends in `.js` reaches the script handler |
| `Server.QueriedScriptImport` | server.js:38-45 | `/@modules/x.js?v=1`, the redirect of ` from 'x.js?v=1'`, is served by the script route as the project file `@modules/x.js?v=1` |
| `Server.VueRequest` | server.js:48-61 | `/@modules/vue` with `module` = `dist/vue.runtime.esm-bundler.js` serves that file rewritten |
| `Server.ComponentScriptRequest` | server.js:72-80 | without a `type` a component serves its script module, whose template import is routed back to the same component file |
| `Server.ComponentTemplateRequest` | server.js:81-88 | `type=template` serves the compiled template, rewritten, and fails without a template block |
| `Server.ComponentWithoutScript` | server.js:70-71 | a component without a script block fails for every `type` |
| `Server.ComponentOtherType` | server.js:72-89 | any other truthy `type` leaves the body unset |
| `Server.StylesheetRequest` | server.js:92-109 | a stylesheet request serves the wrapping module, which embeds a line-free file exactly |
| `Server.ClientRequest` | server.js:112-121 | `/vite/client` serves the vite client script, rewritten |

## Left out

- hmrSocket.js, the change-notification channel, is not part of this model: it is WebSocket I/O.
- Koa and koa-router are represented only by first-match dispatch on the path.
  - Koa routes by the URL's pathname. For a URL containing `#` or whitespace that pathname is shorter than `split('?')[0]`: `/a.js#x` is routed as `/a.js` by Koa, but the model routes it by `/a.js#x`. URL fragments and whitespace are not modelled.
  - String routes `/` and `/vite/client` are exact matches here. path-to-regexp's case-insensitive matching and optional trailing slash are not modelled.
  - HTTP methods other than GET and the `next` chain are not modelled.
- The query string parser is not modelled. A request carries its `type` parameter already parsed: missing, once, or repeated.
- The file system, `path.resolve`, `require` of `package.json`, `@vue/compiler-sfc` and `@vue/compiler-dom` are opaque functions of `Host`. Their own failures, apart from a missing file, manifest, field or block, are not modelled. So are the parser's and compiler's error reports.
- The content type is modelled as `Html` or `JavaScript`. HTTP status codes are not modelled. Koa answers `NotFound` and `Error(FileNotFound)` with 404 (its error handler maps `ENOENT` to 404) and every other `Error` with 500.
- The browser's reading of the served texts is not modelled. The model states the texts it serves, not how HTML or JavaScript parses them. A `<script` inside an HTML comment, an earlier `<SCRIPT` tag, and escapes or an early `"` in the stylesheet's string literal are therefore outside what is proved.
- `console.log`, the listening port and process start-up are left out because they are I/O.
- `Text.ReplaceFirst` assumes a replacement without `$` patterns, which holds for every call in the source.
- Strings are sequences of characters. UTF-8 decoding of files is not modelled.
- ImportRewriter.Redirected: reads `s1[0]` and `s1[1]` as Unicode scalar values, where JavaScript indexes UTF-16 code units. The two differ when the specifier starts with a character outside the Basic Multilingual Plane. For `😀/x` the source's `s1[1]` is a low surrogate, so the source redirects; the model's second character is `/`, so the model keeps the clause. UTF-16 code units are not modelled.
