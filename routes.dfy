/** Route selection (server.js:12, 38, 48, 64, 92, 112). The router tries the
    routes in the order they are registered, against the request path without
    its query; no handler calls `next`, so the first route whose pattern
    matches handles the request and a path no route matches falls through. */
module Routes {
  import opened Text

  datatype Route =
    | Index        // router.get('/')
    | Script       // router.get(/\.js$/)
    | BareModule   // router.get(/^\/@modules/)
    | Component    // router.get(/\.vue$/)
    | Stylesheet   // router.get(/css$/)
    | Client       // router.get('/vite/client')

  /** The routes in registration order. */
  const Registered: seq<Route> := [Index, Script, BareModule, Component, Stylesheet, Client]

  /** The pattern each route was registered with. */
  predicate Matches(r: Route, path: string) {
    match r
    case Index => path == "/"
    case Script => EndsWith(path, ".js")
    case BareModule => StartsWith(path, "/@modules")
    case Component => EndsWith(path, ".vue")
    case Stylesheet => EndsWith(path, "css")
    case Client => path == "/vite/client"
  }

  /** The position of a route in registration order. */
  function Rank(r: Route): (i: nat)
    ensures i < |Registered| && Registered[i] == r
  {
    match r
    case Index => 0
    case Script => 1
    case BareModule => 2
    case Component => 3
    case Stylesheet => 4
    case Client => 5
  }

  /** The index of the first route in `routes` that matches `path`. */
  function FirstMatch(routes: seq<Route>, path: string): (r: Option<nat>)
    ensures r.Some? ==> r.value < |routes| && Matches(routes[r.value], path)
    ensures r.Some? ==> forall j :: 0 <= j < r.value ==> !Matches(routes[j], path)
    ensures r.None? ==> forall j :: 0 <= j < |routes| ==> !Matches(routes[j], path)
  {
    if routes == [] then None
    else if Matches(routes[0], path) then Some(0)
    else
      match FirstMatch(routes[1..], path)
      case Some(i) => Some(i + 1)
      case None => None
  }

  /** The route that handles a request for `path`, or `None` (no handler). */
  function Classify(path: string): Option<Route> {
    match FirstMatch(Registered, path)
    case Some(i) => Some(Registered[i])
    case None => None
  }

  /** A route handles a path exactly when its pattern matches and no route
      registered before it matches; no route handles it exactly when no
      pattern matches. */
  lemma ClassifyFirstRegistered(path: string, r: Route)
    ensures Classify(path) == Some(r) <==>
      Matches(r, path) && forall q :: Rank(q) < Rank(r) ==> !Matches(q, path)
    ensures Classify(path) == None <==> forall q :: !Matches(q, path)
  {
    var m := FirstMatch(Registered, path);
    if m.Some? {
      var i := m.value;
      assert Rank(Registered[i]) == i;
      forall q | Rank(q) < i ensures !Matches(q, path) {
        assert Registered[Rank(q)] == q;
      }
      if Classify(path) != Some(r) && Matches(r, path) {
        assert Rank(Registered[i]) < Rank(r) || Rank(r) < i;
      }
    } else {
      forall q ensures !Matches(q, path) {
        assert Registered[Rank(q)] == q;
      }
    }
  }

  /** Every `.js` path goes to the script route, even under `/@modules/`. */
  lemma ScriptPathsGoToScript(path: string)
    requires EndsWith(path, ".js")
    ensures Classify(path) == Some(Script)
  {
    ClassifyFirstRegistered(path, Script);
    assert path != "/" by {
      assert |path| >= 3;
    }
  }

  lemma ModuleScriptIsScript()
    ensures Classify("/@modules/foo.js") == Some(Script)
  {
    ScriptPathsGoToScript("/@modules/foo.js");
  }

  /** A path under `/@modules` that is not a `.js` path goes to the bare
      module route, even when it ends in `.vue` or `css`. */
  lemma ModulePathsGoToBareModule(path: string)
    requires StartsWith(path, "/@modules") && !EndsWith(path, ".js")
    ensures Classify(path) == Some(BareModule)
  {
    ClassifyFirstRegistered(path, BareModule);
    assert path != "/" by {
      assert |path| >= 9;
    }
  }

  /** `/vite/client` reaches its handler only because it matches none of the
      five earlier patterns. */
  lemma ClientPathGoesToClient()
    ensures forall q :: q != Client ==> !Matches(q, "/vite/client")
    ensures Classify("/vite/client") == Some(Client)
  {
    var p := "/vite/client";
    assert p[|p| - 3..] == "ent";
    assert p[|p| - 4..] == "ient";
    assert p[..9] != "/@modules" by {
      assert p[1] != "/@modules"[1];
    }
    ClassifyFirstRegistered(p, Client);
  }

  /** A `.vue` path outside `/@modules` goes to the component route. */
  lemma ComponentPathsGoToComponent(path: string)
    requires EndsWith(path, ".vue") && !StartsWith(path, "/@modules")
    ensures Classify(path) == Some(Component)
  {
    ClassifyFirstRegistered(path, Component);
    assert path != "/" by {
      assert |path| >= 4;
    }
    assert !EndsWith(path, ".js") by {
      assert path[|path| - 1] == 'e';
    }
  }

  /** Any path ending in `css` outside `/@modules` goes to the stylesheet
      route; the pattern `/css$/` does not ask for a dot. */
  lemma CssPathsGoToStylesheet(path: string)
    requires EndsWith(path, "css") && !StartsWith(path, "/@modules")
    ensures Classify(path) == Some(Stylesheet)
  {
    ClassifyFirstRegistered(path, Stylesheet);
    assert path != "/" by {
      assert |path| >= 3;
    }
    assert path[|path| - 1] == 's';
  }
}
