/** Matching requests against the radix tree: handlers, parameter bindings and the path_exists flag. */
module Router {
  import opened Options
  import opened Paths
  import opened RadixTree

  /** A captured text; a wildcard capture that runs into the trailing-slash sentinel is no piece of the path. */
  datatype Value = Known(text: string) | Dangling
  datatype Binding = Binding(name: string, value: Value)
  datatype MatchResult<H> = MatchResult(handler: Option<H>, params: seq<Binding>, pathExists: bool)

  predicate SplitOf(path: string, views: seq<View>) { views == Views(path) }

  /** From the start of segment `i` to the end of the last segment. */
  function Remainder(path: string, views: seq<View>, i: nat): Value
    requires SplitOf(path, views) && i < |views|
  {
    if views[i].Sentinel? then Known("")
    else if views[|views| - 1].Sentinel? then Dangling
    else
      RunsInOrder(path, 0);
      Known(path[views[i].start..views[|views| - 1].end])
  }

  lemma RootPath()
    ensures Runs("/", 0) == []
  {
  }

  function Captured(path: string, views: seq<View>, i: nat, c: Choice): Value
    requires SplitOf(path, views) && i < |views|
  {
    if c.Rest? then Remainder(path, views, i) else Known(Text(path, views[i]))
  }

  /** What a shape captures from segment `i` on, under the given names. */
  function Bind(names: seq<string>, shape: seq<Choice>, path: string, views: seq<View>, i: nat): seq<Binding>
    requires SplitOf(path, views) && |names| == |shape| && i + |shape| <= |views|
    decreases |shape|
  {
    if shape == [] then []
    else
      var rest := Bind(names[1..], shape[1..], path, views, i + 1);
      if shape[0].Static? then rest else [Binding(names[0], Captured(path, views, i, shape[0]))] + rest
  }

  function NameOr(name: Option<string>): string { if name.Some? then name.value else "" }

  /** The names that the tree holds along a shape. */
  function NamesOn<H>(node: Node<H>, shape: seq<Choice>): (names: seq<string>)
    ensures |names| == |shape|
  {
    seq(|shape|, i requires 0 <= i < |shape| => if shape[i].Static? then "" else NameOr(NameAt(node, shape[..i + 1])))
  }

  /** The names of the earliest routes along a shape. */
  function FirstNames<H>(routes: seq<Route<H>>, shape: seq<Choice>): (names: seq<string>)
    ensures |names| == |shape|
  {
    seq(|shape|, i requires 0 <= i < |shape| =>
          if shape[i].Static? then "" else NameOr(FirstName(routes, shape[..i + 1])))
  }

  /** A route's own names. */
  function OwnNames<H>(r: Route<H>): (names: seq<string>)
    ensures |names| == |ShapeOf(r)|
  {
    var shape := ShapeOf(r);
    seq(|shape|, i requires 0 <= i < |shape| => if shape[i].Static? then "" else OwnName(Segments(r.path), i))
  }

  lemma NamesBelow<H>(node: Node<H>, below: Node<H>, shape: seq<Choice>)
    requires shape != []
    requires shape[0].Static? ==> ChildAt(node, shape[0].text) == Some(below)
    requires shape[0].AnyOne? ==> node.param.Some? && node.param.value.node == below
    requires !shape[0].Rest?
    ensures NamesOn(node, shape)[1..] == NamesOn(below, shape[1..])
    ensures shape[0].AnyOne? ==> NamesOn(node, shape)[0] == node.param.value.name
  {
    forall i | 0 <= i < |shape| - 1 ensures NamesOn(node, shape)[i + 1] == NamesOn(below, shape[1..])[i] {
      assert shape[..i + 2][1..] == shape[1..][..i + 1];
    }
    assert shape[..1] == [shape[0]];
  }

  lemma TreeNames<H>(routes: seq<Route<H>>, shape: seq<Choice>)
    ensures NamesOn(Tree(routes), shape) == FirstNames(routes, shape)
  {
    forall i | 0 <= i < |shape| ensures NamesOn(Tree(routes), shape)[i] == FirstNames(routes, shape)[i] {
      if !shape[i].Static? { TreeName(routes, shape[..i + 1]); }
    }
  }

  lemma {:induction false} MatchesFits(shape: seq<Choice>, segs: seq<string>)
    requires Matches(shape, segs)
    ensures |shape| <= |segs|
  {
    if shape != [] && !shape[0].Rest? { MatchesFits(shape[1..], segs[1..]); }
  }

  function RequestSegments(path: string): seq<string> { Texts(path, Views(path)) }

  /** The outcome of a request, in terms of the tree. */
  ghost function Matched<H>(root: Node<H>, m: Method, path: string): MatchResult<H> {
    MatchedFrom(root, m, path, Views(path), 0, MatchResult(None, [], false), [])
  }

  /** The outcome of the search below `node` from segment `i` on, after the bindings `params` and with `was` so far. */
  ghost function MatchedFrom<H>(node: Node<H>, m: Method, path: string, views: seq<View>, i: nat,
                                was: MatchResult<H>, params: seq<Binding>): (r: MatchResult<H>)
    requires SplitOf(path, views) && i <= |views|
    ensures was.handler.None? ==> (r.handler.Some? <==> Find(node, Texts(path, views)[i..], m).Some?)
  {
    var segs := Texts(path, views)[i..];
    var found := Find(node, segs, m);
    if found.None? then was.(pathExists := was.pathExists || Reaches(node, segs))
    else
      FindSound(node, segs, m);
      MatchesFits(found.value, segs);
      MatchResult(Lookup(node, found.value, m),
                  params + Bind(NamesOn(node, found.value), found.value, path, views, i), true)
  }

  // ---------------------------------------------------------------- the router object

  class Router<H> {
    var root: Node<H>
    ghost var routes: seq<Route<H>>

    ghost predicate Valid()
      reads this
    {
      root == Tree(routes)
    }

    constructor ()
      ensures Valid() && routes == []
    {
      root, routes := EmptyNode(), [];
    }

    method Insert(m: Method, path: string, h: H)
      requires Valid()
      modifies this
      ensures Valid() && routes == old(routes) + [Route(m, path, h)]
    {
      routes := routes + [Route(m, path, h)];
      assert routes[..|routes| - 1] == old(routes);
      if path == "/" {
        root := root.(handlers := root.handlers[m := h]);
        RootPath();
        assert Segments(path) == [];
        return;
      }
      var segments := SplitPath(path);
      root := InsertSegments(root, segments, 0, m, h);
    }

    method InsertSegments(node: Node<H>, segs: seq<string>, idx: nat, m: Method, h: H) returns (r: Node<H>)
      requires idx <= |segs|
      ensures r == Inserted(node, segs[idx..], m, h)
      decreases |segs| - idx
    {
      if idx >= |segs| {
        return node.(handlers := node.handlers[m := h]);
      }
      var seg := segs[idx];
      assert segs[idx..][1..] == segs[idx + 1..];
      if |seg| > 1 && seg[0] == '*' {
        var w := if node.wildcard.None? then Wildcard(seg[1..], map[]) else node.wildcard.value;
        return node.(wildcard := Some(w.(handlers := w.handlers[m := h])));
      }
      if |seg| > 1 && seg[0] == ':' {
        var p := if node.param.None? then Param(seg[1..], EmptyNode()) else node.param.value;
        var below := InsertSegments(p.node, segs, idx + 1, m, h);
        return node.(param := Some(p.(node := below)));
      }
      var i := FindChild(node, seg);
      if i < |node.children| {
        var below := InsertSegments(node.children[i].node, segs, idx + 1, m, h);
        return node.(children := node.children[i := Child(seg, below)]);
      }
      var below := InsertSegments(EmptyNode(), segs, idx + 1, m, h);
      return node.(children := node.children + [Child(seg, below)]);
    }

    /** The loop over the static children. */
    static method FindChild(node: Node<H>, seg: string) returns (i: nat)
      ensures var c := ChildIndex(node.children, seg); i == if c.Some? then c.value else |node.children|
    {
      i := 0;
      while i < |node.children|
        invariant i <= |node.children| && forall j :: 0 <= j < i ==> node.children[j].prefix != seg
      {
        if node.children[i].prefix == seg {
          return;
        }
        i := i + 1;
      }
    }

    method Match(m: Method, path: string) returns (result: MatchResult<H>)
      requires Valid()
      ensures result == Matched(root, m, path)
    {
      result := MatchResult(None, [], false);
      if path == "/" {
        RootPath();
        assert Views(path) == [];
        if m in root.handlers {
          result := MatchResult(Some(root.handlers[m]), [], true);
        } else if root.handlers != map[] {
          result := result.(pathExists := true);
        }
        return;
      }
      var segments := SplitPathView(path);
      var params;
      result, params := MatchNode(root, path, segments, 0, m, result, []);
    }

    method MatchNode(node: Node<H>, path: string, views: seq<View>, idx: nat, m: Method,
                     was: MatchResult<H>, params: seq<Binding>)
      returns (result: MatchResult<H>, params': seq<Binding>)
      requires SplitOf(path, views) && idx <= |views| && was.handler.None?
      ensures result == MatchedFrom(node, m, path, views, idx, was, params)
      ensures result.handler.None? ==> params' == params
      decreases |views| - idx, 1
    {
      if idx >= |views| {
        result := MatchHere(node, path, views, m, was, params);
        params' := params;
        return;
      }
      MatchedStep(node, m, path, views, idx, was, params);
      result, params' := MatchStatic(node, path, views, idx, m, was, params);
      if result.handler.None? {
        result, params' := MatchParam(node, path, views, idx, m, result, params);
        if result.handler.None? {
          result, params' := MatchRest(node, path, views, idx, m, result, params);
        }
      }
    }

    /** All segments are used up. */
    static method MatchHere(node: Node<H>, path: string, views: seq<View>, m: Method,
                            was: MatchResult<H>, params: seq<Binding>)
      returns (result: MatchResult<H>)
      requires SplitOf(path, views)
      ensures result == MatchedFrom(node, m, path, views, |views|, was, params)
    {
      result := was;
      if m in node.handlers {
        result := MatchResult(Some(node.handlers[m]), params, true);
        assert NamesOn(node, []) == [] && params + [] == params;
      } else if node.handlers != map[] {
        result := result.(pathExists := true);
      }
    }

    /** The child with exactly this segment. */
    method MatchStatic(node: Node<H>, path: string, views: seq<View>, idx: nat, m: Method,
                       was: MatchResult<H>, params: seq<Binding>)
      returns (result: MatchResult<H>, params': seq<Binding>)
      requires SplitOf(path, views) && idx < |views| && was.handler.None?
      ensures result == TryStatic(node, m, path, views, idx, was, params)
      ensures result.handler.None? ==> params' == params
      decreases |views| - idx, 0
    {
      result, params' := was, params;
      var i := FindChild(node, Text(path, views[idx]));
      if i < |node.children| {
        result, params' := MatchNode(node.children[i].node, path, views, idx + 1, m, was, params);
      }
    }

    /** Binds the segment, searches below, and takes the binding back if nothing is found. */
    method MatchParam(node: Node<H>, path: string, views: seq<View>, idx: nat, m: Method,
                      was: MatchResult<H>, params: seq<Binding>)
      returns (result: MatchResult<H>, params': seq<Binding>)
      requires SplitOf(path, views) && idx < |views| && was.handler.None?
      ensures result == TryParam(node, m, path, views, idx, was, params)
      ensures result.handler.None? ==> params' == params
      decreases |views| - idx, 0
    {
      result, params' := was, params;
      if node.param.Some? {
        params' := params' + [Binding(node.param.value.name, Known(Text(path, views[idx])))];
        result, params' := MatchNode(node.param.value.node, path, views, idx + 1, m, was, params');
        if result.handler.None? {
          params' := params'[..|params'| - 1];
        }
      }
    }

    /** The wildcard captures the rest of the path. */
    static method MatchRest(node: Node<H>, path: string, views: seq<View>, idx: nat, m: Method,
                            was: MatchResult<H>, params: seq<Binding>)
      returns (result: MatchResult<H>, params': seq<Binding>)
      requires SplitOf(path, views) && idx < |views| && was.handler.None?
      ensures result == TryRest(node, m, path, views, idx, was, params)
      ensures result.handler.None? ==> params' == params
    {
      result, params' := was, params;
      if node.wildcard.Some? {
        var w := node.wildcard.value;
        if m in w.handlers {
          params' := params' + [Binding(w.name, Remainder(path, views, idx))];
          result := MatchResult(Some(w.handlers[m]), params', true);
        } else if w.handlers != map[] {
          result := result.(pathExists := true);
        }
      }
    }
  }

  /** When no branch below a node finds a handler. */
  lemma NothingFound<H>(node: Node<H>, m: Method, path: string, views: seq<View>, i: nat, was: MatchResult<H>,
                        params: seq<Binding>)
    requires SplitOf(path, views) && i < |views|
    requires was.handler.None? && Find(node, Texts(path, views)[i..], m).None?
    ensures var segs, c := Texts(path, views)[i + 1..], ChildAt(node, Text(path, views[i]));
            MatchedFrom(node, m, path, views, i, was, params) == was.(pathExists :=
              || was.pathExists
              || (c.Some? && Reaches(c.value, segs))
              || (node.param.Some? && Reaches(node.param.value.node, segs))
              || (node.wildcard.Some? && node.wildcard.value.handlers != map[]))
  {
  }

  lemma FoundStatic<H>(node: Node<H>, m: Method, path: string, views: seq<View>, i: nat, was: MatchResult<H>,
                       params: seq<Binding>)
    requires SplitOf(path, views) && i < |views|
    requires ChildAt(node, Text(path, views[i])).Some?
    ensures var below := ChildAt(node, Text(path, views[i])).value;
            Find(below, Texts(path, views)[i + 1..], m).Some? ==>
              MatchedFrom(below, m, path, views, i + 1, was, params) ==
              MatchedFrom(node, m, path, views, i, was, params)
  {
    var segs, below := Texts(path, views)[i..], ChildAt(node, Text(path, views[i])).value;
    assert segs[0] == Text(path, views[i]) && segs[1..] == Texts(path, views)[i + 1..];
    var found := Find(below, segs[1..], m);
    if found.Some? {
      var shape := [Static(segs[0])] + found.value;
      assert Find(node, segs, m) == Some(shape) && shape[1..] == found.value;
      NamesBelow(node, below, shape);
      FindSound(node, segs, m);
      MatchesFits(shape, segs);
      assert Bind(NamesOn(node, shape), shape, path, views, i) ==
             Bind(NamesOn(below, found.value), found.value, path, views, i + 1);
    }
  }

  lemma FoundParam<H>(node: Node<H>, m: Method, path: string, views: seq<View>, i: nat,
                      was: MatchResult<H>, before: MatchResult<H>, params: seq<Binding>)
    requires SplitOf(path, views) && i < |views| && node.param.Some?
    ensures var segs, below := Texts(path, views)[i..], node.param.value.node;
            ViaStatic(node, segs, m).None? && Find(below, Texts(path, views)[i + 1..], m).Some? ==>
              MatchedFrom(below, m, path, views, i + 1, before,
                          params + [Binding(node.param.value.name, Known(Text(path, views[i])))])
              == MatchedFrom(node, m, path, views, i, was, params)
  {
    var segs, below := Texts(path, views)[i..], node.param.value.node;
    assert segs[0] == Text(path, views[i]) && segs[1..] == Texts(path, views)[i + 1..];
    var found := Find(below, segs[1..], m);
    if ViaStatic(node, segs, m).None? && found.Some? {
      var shape := [AnyOne] + found.value;
      assert Find(node, segs, m) == Some(shape) && shape[1..] == found.value;
      NamesBelow(node, below, shape);
      FindSound(node, segs, m);
      MatchesFits(shape, segs);
      var b := Binding(node.param.value.name, Known(Text(path, views[i])));
      var rest := Bind(NamesOn(below, found.value), found.value, path, views, i + 1);
      assert Bind(NamesOn(node, shape), shape, path, views, i) == [b] + rest;
      assert params + [b] + rest == params + ([b] + rest);
    }
  }

  lemma FoundWildcard<H>(node: Node<H>, m: Method, path: string, views: seq<View>, i: nat, was: MatchResult<H>,
                         params: seq<Binding>)
    requires SplitOf(path, views) && i < |views| && node.wildcard.Some? && m in node.wildcard.value.handlers
    ensures var segs, w := Texts(path, views)[i..], node.wildcard.value;
            ViaStatic(node, segs, m).None? && ViaParam(node, segs, m).None? ==>
              MatchedFrom(node, m, path, views, i, was, params) ==
              MatchResult(Some(w.handlers[m]), params + [Binding(w.name, Remainder(path, views, i))], true)
  {
  }

  // The three priorities of one step of the search.

  ghost function TryStatic<H>(node: Node<H>, m: Method, path: string, views: seq<View>, i: nat,
                              was: MatchResult<H>, params: seq<Binding>): MatchResult<H>
    requires SplitOf(path, views) && i < |views|
  {
    var c := ChildAt(node, Text(path, views[i]));
    if c.Some? then MatchedFrom(c.value, m, path, views, i + 1, was, params) else was
  }

  ghost function TryParam<H>(node: Node<H>, m: Method, path: string, views: seq<View>, i: nat,
                             was: MatchResult<H>, params: seq<Binding>): MatchResult<H>
    requires SplitOf(path, views) && i < |views|
  {
    if node.param.None? then was
    else
      var b := Binding(node.param.value.name, Known(Text(path, views[i])));
      MatchedFrom(node.param.value.node, m, path, views, i + 1, was, params + [b])
  }

  ghost function TryRest<H>(node: Node<H>, m: Method, path: string, views: seq<View>, i: nat,
                            was: MatchResult<H>, params: seq<Binding>): MatchResult<H>
    requires SplitOf(path, views) && i < |views|
  {
    if node.wildcard.None? then was
    else
      var w := node.wildcard.value;
      if m in w.handlers then
        MatchResult(Some(w.handlers[m]), params + [Binding(w.name, Remainder(path, views, i))], true)
      else was.(pathExists := was.pathExists || w.handlers != map[])
  }

  /** The outcome below a node is that of the first of the three that finds a handler. */
  lemma MatchedStep<H>(node: Node<H>, m: Method, path: string, views: seq<View>, i: nat, was: MatchResult<H>,
                       params: seq<Binding>)
    requires SplitOf(path, views) && i < |views| && was.handler.None?
    ensures MatchedFrom(node, m, path, views, i, was, params) ==
            var r1 := TryStatic(node, m, path, views, i, was, params);
            if r1.handler.Some? then r1
            else
              var r2 := TryParam(node, m, path, views, i, r1, params);
              if r2.handler.Some? then r2 else TryRest(node, m, path, views, i, r2, params)
  {
    var segs := Texts(path, views)[i..];
    assert segs[0] == Text(path, views[i]) && segs[1..] == Texts(path, views)[i + 1..];
    var r1 := TryStatic(node, m, path, views, i, was, params);
    if ViaStatic(node, segs, m).Some? {
      FoundStatic(node, m, path, views, i, was, params);
    } else if ViaParam(node, segs, m).Some? {
      FoundParam(node, m, path, views, i, was, r1, params);
    } else {
      MatchedRest(node, m, path, views, i, was, params);
    }
  }

  /** ... and if neither of the first two does, that of the third. */
  lemma MatchedRest<H>(node: Node<H>, m: Method, path: string, views: seq<View>, i: nat, was: MatchResult<H>,
                       params: seq<Binding>)
    requires SplitOf(path, views) && i < |views| && was.handler.None?
    requires ViaStatic(node, Texts(path, views)[i..], m).None? && ViaParam(node, Texts(path, views)[i..], m).None?
    ensures var r1 := TryStatic(node, m, path, views, i, was, params);
            var r2 := TryParam(node, m, path, views, i, r1, params);
            && r1.handler.None? && r2.handler.None?
            && MatchedFrom(node, m, path, views, i, was, params) == TryRest(node, m, path, views, i, r2, params)
  {
    var segs := Texts(path, views)[i..];
    assert segs[0] == Text(path, views[i]) && segs[1..] == Texts(path, views)[i + 1..];
    if node.wildcard.Some? && m in node.wildcard.value.handlers {
      FoundWildcard(node, m, path, views, i, was, params);
    } else {
      NothingFound(node, m, path, views, i, was, params);
    }
  }

  // ---------------------------------------------------------------- the router is a prioritised list of routes

  ghost predicate RouteMatches<H>(r: Route<H>, path: string) { Matches(ShapeOf(r), RequestSegments(path)) }

  /**
   * Of the routes for this method that match the path, `k` goes first; of several with the same shape, it is the
   * latest.
   */
  ghost predicate Best<H>(routes: seq<Route<H>>, m: Method, path: string, k: nat) {
    && k < |routes| && routes[k].verb == m && RouteMatches(routes[k], path)
    && forall j {:trigger routes[j]} :: 0 <= j < |routes| && routes[j].verb == m && RouteMatches(routes[j], path) ==>
         Before(ShapeOf(routes[k]), ShapeOf(routes[j])) || (ShapeOf(routes[j]) == ShapeOf(routes[k]) && j <= k)
  }

  /** The bindings of a matching route under given names. */
  ghost function BindingsOf<H>(r: Route<H>, names: seq<string>, path: string): seq<Binding>
    requires RouteMatches(r, path) && |names| == |ShapeOf(r)|
  {
    MatchesFits(ShapeOf(r), RequestSegments(path));
    Bind(names, ShapeOf(r), path, Views(path), 0)
  }

  /** If any route for this method matches, the result is the best one's handler, with the first routes' names. */
  lemma HandlerOfBestRoute<H>(routes: seq<Route<H>>, m: Method, path: string, j: nat) returns (k: nat)
    requires j < |routes| && routes[j].verb == m && RouteMatches(routes[j], path)
    ensures Best(routes, m, path, k)
    ensures var r := Matched(Tree(routes), m, path);
            && r.handler == Some(routes[k].handler) && r.pathExists
            && r.params == BindingsOf(routes[k], FirstNames(routes, ShapeOf(routes[k])), path)
  {
    var segs := RequestSegments(path);
    assert segs[0..] == segs;
    FindCoversRoute(routes, m, path, j);
    var shape := Find(Tree(routes), segs, m).value;
    FindSound(Tree(routes), segs, m);
    TreeLookup(routes, shape, m);
    k := Latest(routes, shape, m).value;
    forall i | 0 <= i < |routes| && routes[i].verb == m && RouteMatches(routes[i], path)
      ensures Before(shape, ShapeOf(routes[i])) || (ShapeOf(routes[i]) == shape && i <= k)
    {
      FindCoversRoute(routes, m, path, i);
    }
    TreeNames(routes, shape);
  }

  lemma FindCoversRoute<H>(routes: seq<Route<H>>, m: Method, path: string, j: nat)
    requires j < |routes| && routes[j].verb == m && RouteMatches(routes[j], path)
    ensures var found := Find(Tree(routes), RequestSegments(path), m);
            found.Some? && (found.value == ShapeOf(routes[j]) || Before(found.value, ShapeOf(routes[j])))
  {
    TreeLookup(routes, ShapeOf(routes[j]), m);
    FindBest(Tree(routes), RequestSegments(path), m, ShapeOf(routes[j]));
  }

  /** There is at most one best route, so the result is determined by the list of routes. */
  lemma BestUnique<H>(routes: seq<Route<H>>, m: Method, path: string, k: nat, k': nat)
    requires Best(routes, m, path, k) && Best(routes, m, path, k')
    ensures k == k'
  {
    if Before(ShapeOf(routes[k]), ShapeOf(routes[k'])) {
      BeforeOneWay(ShapeOf(routes[k]), ShapeOf(routes[k']));
    }
  }

  lemma {:induction false} BeforeOneWay(a: seq<Choice>, b: seq<Choice>)
    requires Before(a, b)
    ensures a != b && !Before(b, a)
  {
    if a[0] == b[0] { BeforeOneWay(a[1..], b[1..]); }
  }

  /** There is a handler exactly when some route for the method matches. */
  lemma HandlerIff<H>(routes: seq<Route<H>>, m: Method, path: string)
    ensures var r := Matched(Tree(routes), m, path);
            r.handler.Some? <==> exists j :: 0 <= j < |routes| && routes[j].verb == m && RouteMatches(routes[j], path)
    ensures Matched(Tree(routes), m, path).handler.None? ==> Matched(Tree(routes), m, path).params == []
  {
    var segs, root := RequestSegments(path), Tree(routes);
    assert segs[0..] == segs;
    if Find(root, segs, m).Some? {
      FindSound(root, segs, m);
      TreeLookup(routes, Find(root, segs, m).value, m);
    } else {
      forall j | 0 <= j < |routes| && routes[j].verb == m ensures !RouteMatches(routes[j], path) {
        if RouteMatches(routes[j], path) { FindCoversRoute(routes, m, path, j); }
      }
    }
  }

  /** The search reaches some handler exactly when some route, of any method, matches. */
  lemma ReachesIff<H>(routes: seq<Route<H>>, path: string)
    ensures Reaches(Tree(routes), RequestSegments(path)) <==>
            exists j :: 0 <= j < |routes| && RouteMatches(routes[j], path)
  {
    var segs, root := RequestSegments(path), Tree(routes);
    if Reaches(root, segs) {
      var shape, m := ReachesSound(root, segs);
      TreeLookup(routes, shape, m);
    } else {
      forall j | 0 <= j < |routes| ensures !RouteMatches(routes[j], path) {
        if RouteMatches(routes[j], path) {
          TreeLookup(routes, ShapeOf(routes[j]), routes[j].verb);
          ReachesComplete(root, segs, routes[j].verb, ShapeOf(routes[j]));
        }
      }
    }
  }

  /** path_exists holds exactly when some route, of any method, matches. */
  lemma PathExistsIff<H>(routes: seq<Route<H>>, m: Method, path: string)
    ensures Matched(Tree(routes), m, path).pathExists <==>
              exists j :: 0 <= j < |routes| && RouteMatches(routes[j], path)
  {
    var segs, root := RequestSegments(path), Tree(routes);
    assert segs[0..] == segs;
    ReachesIff(routes, path);
    if Find(root, segs, m).Some? {
      FindSound(root, segs, m);
      ReachesComplete(root, segs, m, Find(root, segs, m).value);
    }
  }

  // ---------------------------------------------------------------- names

  ghost predicate Agree(names: seq<string>, names': seq<string>, shape: seq<Choice>)
    requires |names| == |names'| == |shape|
  {
    forall k :: 0 <= k < |shape| && !shape[k].Static? ==> names[k] == names'[k]
  }

  lemma AgreeStep(names: seq<string>, names': seq<string>, shape: seq<Choice>)
    requires |names| == |names'| == |shape| > 0
    ensures Agree(names, names', shape) <==>
            (shape[0].Static? || names[0] == names'[0]) && Agree(names[1..], names'[1..], shape[1..])
  {
  }

  /** Two sets of names give the same bindings exactly when they agree wherever something is captured. */
  lemma {:induction false} BindEqualIff(names: seq<string>, names': seq<string>, shape: seq<Choice>, path: string,
                                        views: seq<View>, i: nat)
    requires SplitOf(path, views) && |names| == |names'| == |shape| && i + |shape| <= |views|
    ensures Bind(names, shape, path, views, i) == Bind(names', shape, path, views, i) <==> Agree(names, names', shape)
    decreases |shape|
  {
    if shape != [] {
      BindEqualIff(names[1..], names'[1..], shape[1..], path, views, i + 1);
      AgreeStep(names, names', shape);
      if !shape[0].Static? {
        var all, all' := Bind(names, shape, path, views, i), Bind(names', shape, path, views, i);
        assert all[1..] == Bind(names[1..], shape[1..], path, views, i + 1);
        assert all'[1..] == Bind(names'[1..], shape[1..], path, views, i + 1);
        assert all[0].name == names[0] && all'[0].name == names'[0];
      }
    }
  }

  /**
   * The parameters carry the matched route's own names exactly when, at each of its parameters and wildcards, the
   * first route inserted through that position uses the same name.
   */
  lemma OwnNamesIff<H>(routes: seq<Route<H>>, m: Method, path: string, k: nat)
    requires Best(routes, m, path, k)
    ensures Matched(Tree(routes), m, path).params == BindingsOf(routes[k], OwnNames(routes[k]), path) <==>
            forall i :: 0 <= i < |ShapeOf(routes[k])| && !ShapeOf(routes[k])[i].Static? ==>
              NameOr(FirstName(routes, ShapeOf(routes[k])[..i + 1])) == OwnName(Segments(routes[k].path), i)
  {
    var k' := HandlerOfBestRoute(routes, m, path, k);
    BestUnique(routes, m, path, k, k');
    SameBindingsIff(routes, routes[k], path);
  }

  lemma SameBindingsIff<H>(routes: seq<Route<H>>, r: Route<H>, path: string)
    requires RouteMatches(r, path)
    ensures BindingsOf(r, FirstNames(routes, ShapeOf(r)), path) == BindingsOf(r, OwnNames(r), path) <==>
            forall i :: 0 <= i < |ShapeOf(r)| && !ShapeOf(r)[i].Static? ==>
              NameOr(FirstName(routes, ShapeOf(r)[..i + 1])) == OwnName(Segments(r.path), i)
  {
    MatchesFits(ShapeOf(r), RequestSegments(path));
    BindEqualIff(FirstNames(routes, ShapeOf(r)), OwnNames(r), ShapeOf(r), path, Views(path), 0);
  }

  /** A slash and one segment. */
  lemma OneSegment(text: string)
    requires text != "" && '/' !in text
    ensures Segments("/" + text) == [text] && RequestSegments("/" + text) == [text]
    ensures Views("/" + text) == [Run(1, 1 + |text|)]
  {
    var path := "/" + text;
    assert SlashFrom(path, 0) == 0;
    assert SlashFrom(path, 1) == |path|;
    assert Runs(path, 1) == [Run(1, |path|)] + Runs(path, |path|);
    assert path[1..|path|] == text;
  }

  /** Routes "/:a" for GET and then "/:b" for POST: a POST request binds its segment to the name a. */
  lemma NamesClash<H>(a: string, b: string, x: string, h: H, h': H)
    requires a != "" && b != "" && x != "" && '/' !in a + b + x
    ensures var routes := [Route(Get, "/:" + a, h), Route(Post, "/:" + b, h')];
            var r := Matched(Tree(routes), Post, "/" + x);
            r.handler == Some(h') && r.params == [Binding(a, Known(x))]
  {
    var routes := [Route(Get, "/:" + a, h), Route(Post, "/:" + b, h')];
    ClashShapes(a, b, x, routes);
    var k := HandlerOfBestRoute(routes, Post, "/" + x, 1);
    OneSegment(x);
    var path, views := "/" + x, Views("/" + x);
    assert FirstNames(routes, [AnyOne]) == [a];
    assert Text(path, views[0]) == x;
    assert Bind([a][1..], [AnyOne][1..], path, views, 1) == [];
    assert Bind([a], [AnyOne], path, views, 0) == [Binding(a, Known(x))];
  }

  lemma ClashShapes<H>(a: string, b: string, x: string, routes: seq<Route<H>>)
    requires a != "" && b != "" && x != "" && '/' !in a + b + x
    requires |routes| == 2 && routes[0].path == "/:" + a && routes[1].path == "/:" + b
    ensures ShapeOf(routes[0]) == ShapeOf(routes[1]) == [AnyOne] && RouteMatches(routes[1], "/" + x)
    ensures FirstName(routes, [AnyOne]) == Some(a)
  {
    OneSegment(":" + a);
    OneSegment(":" + b);
    OneSegment(x);
    assert "/" + (":" + a) == "/:" + a && "/" + (":" + b) == "/:" + b;
    assert Shape([":" + a]) == [AnyOne] && Shape([":" + b]) == [AnyOne];
    assert Matches([AnyOne], [x]);
    assert routes[..1][..0] == [];
    assert FirstName(routes[..1][..0], [AnyOne]) == None;
    assert FirstName(routes[..1], [AnyOne]) == Some(a);
  }

  // ---------------------------------------------------------------- what is captured

  /** The number of positions of a shape that capture something. */
  function Captures(shape: seq<Choice>): nat {
    if shape == [] then 0 else Captures(shape[1..]) + if shape[0].Static? then 0 else 1
  }

  lemma {:induction false} BindCount(names: seq<string>, shape: seq<Choice>, path: string, views: seq<View>, i: nat)
    requires SplitOf(path, views) && |names| == |shape| && i + |shape| <= |views|
    ensures |Bind(names, shape, path, views, i)| == Captures(shape)
    decreases |shape|
  {
    if shape != [] {
      BindCount(names[1..], shape[1..], path, views, i + 1);
    }
  }

  /** One binding for each capturing position, in order, with the name and the text of that position. */
  lemma {:induction false} BindAt(names: seq<string>, shape: seq<Choice>, path: string, views: seq<View>, i: nat,
                                  k: nat)
    requires SplitOf(path, views) && |names| == |shape| && i + |shape| <= |views| && k < |shape| && !shape[k].Static?
    ensures Captures(shape[..k]) < |Bind(names, shape, path, views, i)|
    ensures Bind(names, shape, path, views, i)[Captures(shape[..k])] ==
            Binding(names[k], Captured(path, views, i + k, shape[k]))
    decreases |shape|
  {
    if k > 0 {
      assert shape[..k][1..] == shape[1..][..k - 1];
      BindAt(names[1..], shape[1..], path, views, i + 1, k - 1);
    }
  }

  /**
   * The parameters of a request: one for each parameter and wildcard of the matched route, in order. A parameter has
   * the segment at its position; a wildcard has the rest of the path, which is empty at a trailing slash.
   */
  lemma ParamOfBestRoute<H>(routes: seq<Route<H>>, m: Method, path: string, k: nat, n: nat)
    requires Best(routes, m, path, k) && n < |ShapeOf(routes[k])| && !ShapeOf(routes[k])[n].Static?
    ensures var shape, params := ShapeOf(routes[k]), Matched(Tree(routes), m, path).params;
            && |params| == Captures(shape) && Captures(shape[..n]) < |params| && n < |Views(path)|
            && params[Captures(shape[..n])].name == NameOr(FirstName(routes, shape[..n + 1]))
            && var value := params[Captures(shape[..n])].value;
               && (shape[n].AnyOne? ==> value == Known(RequestSegments(path)[n]))
               && (shape[n].Rest? && !TrailingSlash(path) ==> value == Known(path[Views(path)[n].start..]))
               && (shape[n].Rest? && Views(path)[n].Sentinel? ==> value == Known(""))
  {
    var k' := HandlerOfBestRoute(routes, m, path, k);
    BestUnique(routes, m, path, k, k');
    BindingAt(routes[k], FirstNames(routes, ShapeOf(routes[k])), path, n);
    WildcardValue(path, n);
  }

  lemma BindingAt<H>(r: Route<H>, names: seq<string>, path: string, n: nat)
    requires RouteMatches(r, path) && |names| == |ShapeOf(r)| && n < |ShapeOf(r)| && !ShapeOf(r)[n].Static?
    ensures var shape, params := ShapeOf(r), BindingsOf(r, names, path);
            && |params| == Captures(shape) && Captures(shape[..n]) < |params| && n < |Views(path)|
            && params[Captures(shape[..n])] == Binding(names[n], Captured(path, Views(path), n, shape[n]))
  {
    MatchesFits(ShapeOf(r), RequestSegments(path));
    BindCount(names, ShapeOf(r), path, Views(path), 0);
    BindAt(names, ShapeOf(r), path, Views(path), 0, n);
  }

  /** Where another matching route first differs in shape from the best one, the best one is the more literal. */
  lemma BestIsMoreLiteral<H>(routes: seq<Route<H>>, m: Method, path: string, k: nat, j: nat, n: nat)
    requires Best(routes, m, path, k) && j < |routes| && routes[j].verb == m && RouteMatches(routes[j], path)
    requires n < |ShapeOf(routes[k])| && n < |ShapeOf(routes[j])|
    requires ShapeOf(routes[k])[..n] == ShapeOf(routes[j])[..n] && ShapeOf(routes[k])[n] != ShapeOf(routes[j])[n]
    ensures var c, d := ShapeOf(routes[k])[n], ShapeOf(routes[j])[n];
            (c.Static? && !d.Static?) || (c.AnyOne? && d.Rest?)
  {
    BeforeIff(ShapeOf(routes[k]), ShapeOf(routes[j]), n);
  }

  // ---------------------------------------------------------------- wildcards and trailing slashes

  lemma LastRunEnds(path: string)
    requires !TrailingSlash(path) && Runs(path, 0) != []
    ensures Runs(path, 0)[|Runs(path, 0)| - 1].end == |path|
  {
    var vs := Runs(path, 0);
    RunsMaximal(path, 0, 0);
    RunsInOrder(path, 0);
    assert path[|path| - 1] != '/';
    RunsCover(path, 0, |path| - 1);
  }

  /**
   * A wildcard captures the rest of the path when the path has no trailing slash. With one, it captures nothing
   * well-defined unless only the empty last segment is left.
   */
  lemma WildcardValue(path: string, i: nat)
    requires i < |Views(path)|
    ensures !TrailingSlash(path) ==> Remainder(path, Views(path), i) == Known(path[Views(path)[i].start..])
    ensures Remainder(path, Views(path), i) == Dangling <==> TrailingSlash(path) && Views(path)[i].Run?
    ensures Views(path)[i].Sentinel? ==> Remainder(path, Views(path), i) == Known("")
  {
    if !TrailingSlash(path) {
      assert Views(path) == Runs(path, 0);
      LastRunEnds(path);
      assert path[Views(path)[i].start..|path|] == path[Views(path)[i].start..];
    }
  }

  lemma {:induction false} LiteralShape(segs: seq<string>, other: seq<string>)
    requires forall i :: 0 <= i < |segs| ==> !IsWildcard(segs[i]) && !IsParam(segs[i])
    ensures Matches(Shape(segs), other) <==> segs == other
  {
    if segs != [] && other != [] {
      LiteralShape(segs[1..], other[1..]);
      assert Shape(segs)[1..] == Shape(segs[1..]);
      assert segs == [segs[0]] + segs[1..] && other == [other[0]] + other[1..];
    }
  }

  /** A route of literal segments matches its own path exactly when the path has no trailing slash. */
  lemma LiteralMatchesItself<H>(r: Route<H>)
    requires forall i :: 0 <= i < |Segments(r.path)| ==>
              !IsWildcard(Segments(r.path)[i]) && !IsParam(Segments(r.path)[i])
    ensures RouteMatches(r, r.path) <==> !(|r.path| > 1 && r.path[|r.path| - 1] == '/')
  {
    LiteralShape(Segments(r.path), RequestSegments(r.path));
    if !TrailingSlash(r.path) {
      assert Views(r.path) == Runs(r.path, 0);
    } else {
      assert |RequestSegments(r.path)| == |Segments(r.path)| + 1;
    }
  }
}
