/** The HTTP router: a tree of path segments, proved to behave like a prioritised list of routes. */
module RadixTree {
  import opened Options
  import opened Paths

  datatype Method = Get | Head | Post | Put | Delete | OptionsMethod | Patch | Unknown

  // ---------------------------------------------------------------- routes

  datatype Route<H> = Route(verb: Method, path: string, handler: H)

  /** How a route consumes one segment; a wildcard consumes all that are left. */
  datatype Choice = Static(text: string) | AnyOne | Rest

  predicate IsWildcard(seg: string) { |seg| > 1 && seg[0] == '*' }
  predicate IsParam(seg: string) { |seg| > 1 && seg[0] == ':' }

  /** What a route's segments match, without the names; what follows a wildcard is ignored. */
  function Shape(segs: seq<string>): (shape: seq<Choice>)
    ensures |shape| <= |segs|
  {
    if segs == [] then []
    else if IsWildcard(segs[0]) then [Rest]
    else if IsParam(segs[0]) then [AnyOne] + Shape(segs[1..])
    else [Static(segs[0])] + Shape(segs[1..])
  }

  function ShapeOf<H>(r: Route<H>): seq<Choice> { Shape(Segments(r.path)) }

  predicate Matches(shape: seq<Choice>, segs: seq<string>) {
    if shape == [] then segs == []
    else if segs == [] then false
    else match shape[0]
      case Static(text) => segs[0] == text && Matches(shape[1..], segs[1..])
      case AnyOne => Matches(shape[1..], segs[1..])
      case Rest => |shape| == 1
  }

  function Rank(c: Choice): nat {
    match c case Static(_) => 0 case AnyOne => 1 case Rest => 2
  }

  /** Lexicographic priority: literal text before a parameter before a wildcard. */
  predicate Before(a: seq<Choice>, b: seq<Choice>) {
    a != [] && b != [] && (Rank(a[0]) < Rank(b[0]) || (a[0] == b[0] && Before(a[1..], b[1..])))
  }

  /** A wildcard is a star and a name, a parameter a colon and a name; anything else is literal. */
  lemma {:induction false} ShapeAt(segs: seq<string>, k: nat)
    requires k < |Shape(segs)|
    ensures var star, colon := |segs[k]| > 1 && segs[k][0] == '*', |segs[k]| > 1 && segs[k][0] == ':';
            && Shape(segs)[k] == (if star then Rest else if colon then AnyOne else Static(segs[k]))
            && (star ==> k == |Shape(segs)| - 1) && (!star && k == |Shape(segs)| - 1 ==> |segs| == |Shape(segs)|)
    decreases |segs|
  {
    if !IsWildcard(segs[0]) {
      assert Shape(segs)[1..] == Shape(segs[1..]);
      if k > 0 {
        ShapeAt(segs[1..], k - 1);
      }
    }
  }

  /**
   * Position by position: literal text must be the same, a parameter takes any one segment, a wildcard at the end
   * takes one or more.
   */
  lemma {:induction false} MatchesIff(shape: seq<Choice>, segs: seq<string>)
    ensures Matches(shape, segs) <==>
            && (if shape != [] && shape[|shape| - 1].Rest? then |segs| >= |shape| else |segs| == |shape|)
            && (forall k :: 0 <= k < |shape| && shape[k].Static? ==> segs[k] == shape[k].text)
            && (forall k :: 0 <= k < |shape| - 1 ==> !shape[k].Rest?)
    decreases |shape|
  {
    if shape != [] && segs != [] && !shape[0].Rest? {
      var s, t := shape[1..], segs[1..];
      MatchesIff(s, t);
      assert forall k :: 0 < k < |shape| ==> shape[k] == s[k - 1];
      assert forall k :: 0 < k < |segs| ==> segs[k] == t[k - 1];
    }
  }

  /** What goes first is decided where two shapes first differ: literal text, else a parameter before a wildcard. */
  lemma {:induction false} BeforeIff(a: seq<Choice>, b: seq<Choice>, n: nat)
    requires n < |a| && n < |b| && a[..n] == b[..n] && a[n] != b[n]
    ensures Before(a, b) <==> (a[n].Static? && !b[n].Static?) || (a[n].AnyOne? && b[n].Rest?)
    decreases n
  {
    if n > 0 {
      assert a[0] == a[..n][0] == b[..n][0] == b[0];
      assert a[1..][..n - 1] == a[..n][1..] && b[1..][..n - 1] == b[..n][1..];
      BeforeIff(a[1..], b[1..], n - 1);
    }
  }

  // ---------------------------------------------------------------- the tree

  datatype Node<H> = Node(
    handlers: map<Method, H>, children: seq<Child<H>>, param: Option<Param<H>>, wildcard: Option<Wildcard<H>>)
  datatype Child<H> = Child(prefix: string, node: Node<H>)
  datatype Param<H> = Param(name: string, node: Node<H>)
  datatype Wildcard<H> = Wildcard(name: string, handlers: map<Method, H>)

  function EmptyNode<H>(): Node<H> { Node(map[], [], None, None) }

  function HandlerOf<H>(handlers: map<Method, H>, m: Method): Option<H> {
    if m in handlers then Some(handlers[m]) else None
  }

  /** The first child with this prefix. */
  function ChildIndex<H>(children: seq<Child<H>>, text: string): (r: Option<nat>)
    ensures r.Some? ==> r.value < |children| && children[r.value].prefix == text
    ensures r.Some? ==> forall j :: 0 <= j < r.value ==> children[j].prefix != text
    ensures r.None? ==> forall j :: 0 <= j < |children| ==> children[j].prefix != text
  {
    if children == [] then None
    else if children[0].prefix == text then Some(0)
    else match ChildIndex(children[1..], text)
      case None => None
      case Some(i) => Some(i + 1)
  }

  function ChildAt<H>(node: Node<H>, text: string): Option<Node<H>> {
    match ChildIndex(node.children, text)
    case None => None
    case Some(i) => Some(node.children[i].node)
  }

  /** The node below which a segment is inserted. */
  function Below<H>(node: Node<H>, seg: string): Node<H> {
    if IsParam(seg) then if node.param.Some? then node.param.value.node else EmptyNode()
    else
      var c := ChildAt(node, seg);
      if c.Some? then c.value else EmptyNode()
  }

  function WithWildcard<H>(node: Node<H>, seg: string, m: Method, h: H): Node<H>
    requires IsWildcard(seg)
  {
    var w := if node.wildcard.Some? then node.wildcard.value else Wildcard(seg[1..], map[]);
    node.(wildcard := Some(w.(handlers := w.handlers[m := h])))
  }

  function WithParam<H>(node: Node<H>, seg: string, below: Node<H>): Node<H>
    requires IsParam(seg)
  {
    node.(param := Some(Param(if node.param.Some? then node.param.value.name else seg[1..], below)))
  }

  function WithChild<H>(node: Node<H>, seg: string, below: Node<H>): Node<H> {
    match ChildIndex(node.children, seg)
    case Some(i) => node.(children := node.children[i := Child(seg, below)])
    case None => node.(children := node.children + [Child(seg, below)])
  }

  function Inserted<H>(node: Node<H>, segs: seq<string>, m: Method, h: H): Node<H>
    decreases |segs|
  {
    if segs == [] then node.(handlers := node.handlers[m := h])
    else if IsWildcard(segs[0]) then WithWildcard(node, segs[0], m, h)
    else
      var below := Inserted(Below(node, segs[0]), segs[1..], m, h);
      if IsParam(segs[0]) then WithParam(node, segs[0], below) else WithChild(node, segs[0], below)
  }

  function Tree<H>(routes: seq<Route<H>>): Node<H> {
    if routes == [] then EmptyNode()
    else
      var r := routes[|routes| - 1];
      Inserted(Tree(routes[..|routes| - 1]), Segments(r.path), r.verb, r.handler)
  }

  // ---------------------------------------------------------------- looking up one shape

  function Lookup<H>(node: Node<H>, shape: seq<Choice>, m: Method): Option<H>
    decreases |shape|
  {
    if shape == [] then HandlerOf(node.handlers, m)
    else match shape[0]
      case Static(text) => (
        var c := ChildAt(node, text);
        if c.None? then None else Lookup(c.value, shape[1..], m))
      case AnyOne => if node.param.None? then None else Lookup(node.param.value.node, shape[1..], m)
      case Rest => if |shape| > 1 || node.wildcard.None? then None else HandlerOf(node.wildcard.value.handlers, m)
  }

  /** The name stored where the last choice of a shape leads, if it is a parameter or a wildcard. */
  function NameAt<H>(node: Node<H>, shape: seq<Choice>): Option<string>
    requires shape != []
    decreases |shape|
  {
    match shape[0]
    case Static(text) => (
      var c := ChildAt(node, text);
      if c.None? || |shape| == 1 then None else NameAt(c.value, shape[1..]))
    case AnyOne =>
      if node.param.None? then None
      else if |shape| == 1 then Some(node.param.value.name)
      else NameAt(node.param.value.node, shape[1..])
    case Rest => if |shape| > 1 || node.wildcard.None? then None else Some(node.wildcard.value.name)
  }

  lemma {:induction false} EmptyHoldsNothing<H>(shape: seq<Choice>, m: Method)
    ensures Lookup<H>(EmptyNode(), shape, m) == None && (shape != [] ==> NameAt<H>(EmptyNode(), shape) == None)
  {
  }

  /** Replacing a child's node moves no child. */
  lemma ReplacedChild<H>(children: seq<Child<H>>, i: nat, below: Node<H>, text: string)
    requires i < |children|
    ensures ChildIndex(children[i := Child(children[i].prefix, below)], text) == ChildIndex(children, text)
  {
    var children' := children[i := Child(children[i].prefix, below)];
    var k, k' := ChildIndex(children, text), ChildIndex(children', text);
    assert k.Some? ==> children'[k.value].prefix == text;
    assert k'.Some? ==> children[k'.value].prefix == text;
  }

  /** A child added at the end is found under its own prefix, if there was none, and hides nothing. */
  lemma AppendedChild<H>(children: seq<Child<H>>, child: Child<H>, text: string)
    requires ChildIndex(children, child.prefix).None?
    ensures ChildIndex(children + [child], text) ==
            if text == child.prefix then Some(|children|) else ChildIndex(children, text)
  {
    var children' := children + [child];
    var k, k' := ChildIndex(children, text), ChildIndex(children', text);
    assert k.Some? ==> children'[k.value].prefix == text;
    assert children'[|children|] == child;
  }

  lemma ChildOfWith<H>(node: Node<H>, seg: string, below: Node<H>, text: string)
    ensures ChildAt(WithChild(node, seg, below), text) == if text == seg then Some(below) else ChildAt(node, text)
  {
    match ChildIndex(node.children, seg)
    case Some(i) => ReplacedChild(node.children, i, below, text);
    case None => AppendedChild(node.children, Child(seg, below), text);
  }

  lemma ShapeSplit(segs: seq<string>, shape: seq<Choice>)
    requires segs != [] && shape != [] && !IsWildcard(segs[0])
    ensures shape == Shape(segs) <==> shape[0] == Shape(segs)[0] && shape[1..] == Shape(segs[1..])
  {
  }

  // What a shape sees of a node after an insertion: the same as before, unless its first choice is the one inserted.

  lemma AfterWildcard<H>(node: Node<H>, seg: string, m: Method, h: H, shape: seq<Choice>, m': Method)
    requires IsWildcard(seg) && shape != []
    ensures Lookup(WithWildcard(node, seg, m, h), shape, m') ==
            if shape == [Rest] && m' == m then Some(h) else Lookup(node, shape, m')
    ensures NameAt(WithWildcard(node, seg, m, h), shape) ==
            if shape == [Rest] && node.wildcard.None? then Some(seg[1..]) else NameAt(node, shape)
  {
  }

  lemma AfterParam<H>(node: Node<H>, seg: string, below: Node<H>, shape: seq<Choice>, m: Method)
    requires IsParam(seg) && shape != []
    ensures Lookup(WithParam(node, seg, below), shape, m) ==
            if shape[0] == AnyOne then Lookup(below, shape[1..], m) else Lookup(node, shape, m)
    ensures NameAt(WithParam(node, seg, below), shape) ==
            if shape[0] != AnyOne then NameAt(node, shape)
            else if |shape| > 1 then NameAt(below, shape[1..])
            else if node.param.Some? then NameAt(node, shape) else Some(seg[1..])
  {
  }

  lemma AfterChild<H>(node: Node<H>, seg: string, below: Node<H>, shape: seq<Choice>, m: Method)
    requires shape != []
    ensures Lookup(WithChild(node, seg, below), shape, m) ==
            if shape[0] == Static(seg) then Lookup(below, shape[1..], m) else Lookup(node, shape, m)
    ensures NameAt(WithChild(node, seg, below), shape) ==
            if shape[0] == Static(seg) && |shape| > 1 then NameAt(below, shape[1..]) else NameAt(node, shape)
  {
    if shape[0].Static? {
      ChildOfWith(node, seg, below, shape[0].text);
    }
  }

  /** A shape whose first step is that of a segment is looked up below that segment. */
  lemma LookupBelow<H>(node: Node<H>, seg: string, shape: seq<Choice>, m: Method)
    requires shape != [] && !IsWildcard(seg) && shape[0] == (if IsParam(seg) then AnyOne else Static(seg))
    ensures Lookup(node, shape, m) == Lookup(Below(node, seg), shape[1..], m)
    ensures |shape| > 1 ==> NameAt(node, shape) == NameAt(Below(node, seg), shape[1..])
  {
    EmptyHoldsNothing<H>(shape[1..], m);
  }

  /** One level of an insertion, as a lookup sees it. */
  lemma LookupOneDown<H>(node: Node<H>, segs: seq<string>, m: Method, h: H, shape: seq<Choice>, m': Method)
    requires segs != [] && shape != [] && !IsWildcard(segs[0])
    ensures Lookup(Inserted(node, segs, m, h), shape, m') ==
            if shape[0] == Shape(segs)[0] then Lookup(Inserted(Below(node, segs[0]), segs[1..], m, h), shape[1..], m')
            else Lookup(node, shape, m')
  {
    var below := Inserted(Below(node, segs[0]), segs[1..], m, h);
    if IsParam(segs[0]) {
      AfterParam(node, segs[0], below, shape, m');
    } else {
      AfterChild(node, segs[0], below, shape, m');
    }
  }

  /** At the end of the route or of the shape. */
  lemma LookupAtEnd<H>(node: Node<H>, segs: seq<string>, m: Method, h: H, shape: seq<Choice>, m': Method)
    requires segs == [] || shape == []
    ensures Lookup(Inserted(node, segs, m, h), shape, m') ==
            if shape == [] && segs == [] && m' == m then Some(h) else Lookup(node, shape, m')
  {
    assert segs != [] ==> Inserted(node, segs, m, h).handlers == node.handlers;
  }

  /** Inserting a route changes the handler of its shape and method, and nothing else. */
  lemma {:induction false} InsertThenLookup<H>(node: Node<H>, segs: seq<string>, m: Method, h: H,
                                               shape: seq<Choice>, m': Method)
    ensures Lookup(Inserted(node, segs, m, h), shape, m') ==
            if shape == Shape(segs) && m' == m then Some(h) else Lookup(node, shape, m')
    decreases |segs|
  {
    if segs == [] || shape == [] {
      LookupAtEnd(node, segs, m, h, shape, m');
    } else if IsWildcard(segs[0]) {
      AfterWildcard(node, segs[0], m, h, shape, m');
    } else {
      ShapeSplit(segs, shape);
      LookupOneDown(node, segs, m, h, shape, m');
      if shape[0] == Shape(segs)[0] {
        LookupBelow(node, segs[0], shape, m');
        InsertThenLookup(Below(node, segs[0]), segs[1..], m, h, shape[1..], m');
      }
    }
  }

  // ---------------------------------------------------------------- names

  /** The name that a route's segment gives its parameter or wildcard. */
  function OwnName(segs: seq<string>, i: nat): string
    requires i < |segs|
  {
    if segs[i] == "" then "" else segs[i][1..]
  }

  predicate Named(shape: seq<Choice>) {
    shape != [] && !shape[|shape| - 1].Static?
  }

  lemma NameOneDown<H>(node: Node<H>, segs: seq<string>, m: Method, h: H, shape: seq<Choice>)
    requires segs != [] && |shape| > 1 && !IsWildcard(segs[0])
    ensures NameAt(Inserted(node, segs, m, h), shape) ==
            if shape[0] == Shape(segs)[0] then NameAt(Inserted(Below(node, segs[0]), segs[1..], m, h), shape[1..])
            else NameAt(node, shape)
  {
    var below := Inserted(Below(node, segs[0]), segs[1..], m, h);
    if IsParam(segs[0]) {
      AfterParam(node, segs[0], below, shape, m);
    } else {
      AfterChild(node, segs[0], below, shape, m);
    }
  }

  /** The name of a first step. */
  lemma NameHere<H>(node: Node<H>, segs: seq<string>, m: Method, h: H, shape: seq<Choice>)
    requires Named(shape) && segs != [] && (|shape| == 1 || IsWildcard(segs[0]))
    ensures NameAt(Inserted(node, segs, m, h), shape) ==
            if NameAt(node, shape).Some? then NameAt(node, shape)
            else if shape <= Shape(segs) then Some(OwnName(segs, |shape| - 1))
            else None
  {
    var below := Inserted(Below(node, segs[0]), segs[1..], m, h);
    if IsWildcard(segs[0]) {
      AfterWildcard(node, segs[0], m, h, shape, m);
    } else if IsParam(segs[0]) {
      AfterParam(node, segs[0], below, shape, m);
    } else {
      AfterChild(node, segs[0], below, shape, m);
    }
  }

  /** A position that has a name keeps it; a route names the positions on its way that have none. */
  lemma {:induction false} InsertThenName<H>(node: Node<H>, segs: seq<string>, m: Method, h: H, shape: seq<Choice>)
    requires Named(shape)
    ensures NameAt(Inserted(node, segs, m, h), shape) ==
            if NameAt(node, shape).Some? then NameAt(node, shape)
            else if shape <= Shape(segs) then Some(OwnName(segs, |shape| - 1))
            else None
    decreases |segs|
  {
    if segs == [] {
      HandlersDoNotName(node, node.handlers[m := h], shape);
    } else if |shape| == 1 || IsWildcard(segs[0]) {
      NameHere(node, segs, m, h, shape);
    } else {
      ShapePrefix(segs, shape);
      NameOneDown(node, segs, m, h, shape);
      if shape[0] == Shape(segs)[0] {
        LookupBelow(node, segs[0], shape, m);
        InsertThenName(Below(node, segs[0]), segs[1..], m, h, shape[1..]);
      }
    }
  }

  lemma ShapePrefix(segs: seq<string>, shape: seq<Choice>)
    requires segs != [] && |shape| > 1 && !IsWildcard(segs[0])
    ensures shape <= Shape(segs) <==> shape[0] == Shape(segs)[0] && shape[1..] <= Shape(segs[1..])
  {
    assert Shape(segs)[1..] == Shape(segs[1..]);
  }

  lemma HandlersDoNotName<H>(node: Node<H>, handlers: map<Method, H>, shape: seq<Choice>)
    requires shape != []
    ensures NameAt(node.(handlers := handlers), shape) == NameAt(node, shape)
  {
  }

  // ---------------------------------------------------------------- the tree as a list of routes

  predicate IsFor<H>(r: Route<H>, shape: seq<Choice>, m: Method) { ShapeOf(r) == shape && r.verb == m }

  /** The latest route with this shape and method: it replaced the earlier ones. */
  function Latest<H>(routes: seq<Route<H>>, shape: seq<Choice>, m: Method): (r: Option<nat>)
    ensures r.Some? ==> r.value < |routes| && IsFor(routes[r.value], shape, m)
    ensures forall j :: 0 <= j < |routes| && IsFor(routes[j], shape, m) ==> r.Some? && j <= r.value
  {
    if routes == [] then None
    else
      var n := |routes| - 1;
      if IsFor(routes[n], shape, m) then Some(n) else Latest(routes[..n], shape, m)
  }

  /** The name in the earliest route that passes through this position. */
  function FirstName<H>(routes: seq<Route<H>>, shape: seq<Choice>): Option<string>
    requires shape != []
  {
    if routes == [] then None
    else
      var n := |routes| - 1;
      var earlier := FirstName(routes[..n], shape);
      if earlier.Some? then earlier
      else if shape <= ShapeOf(routes[n]) then Some(OwnName(Segments(routes[n].path), |shape| - 1))
      else None
  }

  lemma {:induction false} TreeLookup<H>(routes: seq<Route<H>>, shape: seq<Choice>, m: Method)
    ensures var k := Latest(routes, shape, m);
            Lookup(Tree(routes), shape, m) == if k.None? then None else Some(routes[k.value].handler)
  {
    if routes == [] {
      EmptyHoldsNothing<H>(shape, m);
    } else {
      var n := |routes| - 1;
      TreeLookup(routes[..n], shape, m);
      InsertThenLookup(Tree(routes[..n]), Segments(routes[n].path), routes[n].verb, routes[n].handler, shape, m);
    }
  }

  lemma {:induction false} TreeName<H>(routes: seq<Route<H>>, shape: seq<Choice>)
    requires Named(shape)
    ensures NameAt(Tree(routes), shape) == FirstName(routes, shape)
  {
    if routes == [] {
      EmptyHoldsNothing<H>(shape, Get);
    } else {
      var n := |routes| - 1;
      TreeName(routes[..n], shape);
      InsertThenName(Tree(routes[..n]), Segments(routes[n].path), routes[n].verb, routes[n].handler, shape);
    }
  }

  // ---------------------------------------------------------------- searching the tree

  /** The shape under which the search finds a handler. */
  function Find<H>(node: Node<H>, segs: seq<string>, m: Method): Option<seq<Choice>>
    decreases |segs|, 1
  {
    if segs == [] then if m in node.handlers then Some([]) else None
    else
      var viaStatic := ViaStatic(node, segs, m);
      var viaParam := ViaParam(node, segs, m);
      if viaStatic.Some? then Some([Static(segs[0])] + viaStatic.value)
      else if viaParam.Some? then Some([AnyOne] + viaParam.value)
      else if node.wildcard.Some? && m in node.wildcard.value.handlers then Some([Rest])
      else None
  }

  function ViaStatic<H>(node: Node<H>, segs: seq<string>, m: Method): Option<seq<Choice>>
    requires segs != []
    decreases |segs|, 0
  {
    var c := ChildAt(node, segs[0]);
    if c.None? then None else Find(c.value, segs[1..], m)
  }

  function ViaParam<H>(node: Node<H>, segs: seq<string>, m: Method): Option<seq<Choice>>
    requires segs != []
    decreases |segs|, 0
  {
    if node.param.None? then None else Find(node.param.value.node, segs[1..], m)
  }

  /** Whether the search meets a node with a handler for any method. */
  predicate Reaches<H>(node: Node<H>, segs: seq<string>)
    decreases |segs|
  {
    if segs == [] then node.handlers != map[]
    else
      var c := ChildAt(node, segs[0]);
      || (c.Some? && Reaches(c.value, segs[1..]))
      || (node.param.Some? && Reaches(node.param.value.node, segs[1..]))
      || (node.wildcard.Some? && node.wildcard.value.handlers != map[])
  }

  lemma {:induction false} FindSound<H>(node: Node<H>, segs: seq<string>, m: Method)
    requires Find(node, segs, m).Some?
    ensures var shape := Find(node, segs, m).value; Matches(shape, segs) && Lookup(node, shape, m).Some?
    decreases |segs|
  {
    if segs != [] {
      var shape := Find(node, segs, m).value;
      if ViaStatic(node, segs, m).Some? {
        FindSound(ChildAt(node, segs[0]).value, segs[1..], m);
        assert shape[1..] == ViaStatic(node, segs, m).value;
      } else if ViaParam(node, segs, m).Some? {
        FindSound(node.param.value.node, segs[1..], m);
        assert shape[1..] == ViaParam(node, segs, m).value;
      }
    }
  }

  /** Whatever shape matches and has a handler, the search finds one that is the same or goes before it. */
  lemma {:induction false} FindBest<H>(node: Node<H>, segs: seq<string>, m: Method, shape: seq<Choice>)
    requires Matches(shape, segs) && Lookup(node, shape, m).Some?
    ensures Find(node, segs, m).Some?
    ensures Find(node, segs, m).value == shape || Before(Find(node, segs, m).value, shape)
    decreases |segs|
  {
    if segs != [] {
      var found := Find(node, segs, m);
      if shape[0].Static? {
        FindBest(ChildAt(node, segs[0]).value, segs[1..], m, shape[1..]);
        assert found.value[1..] == ViaStatic(node, segs, m).value;
        assert shape == [shape[0]] + shape[1..];
      } else if shape[0].AnyOne? {
        FindBest(node.param.value.node, segs[1..], m, shape[1..]);
        if ViaStatic(node, segs, m).None? {
          assert found.value[1..] == ViaParam(node, segs, m).value;
          assert shape == [shape[0]] + shape[1..];
        }
      }
    }
  }

  lemma {:induction false} ReachesComplete<H>(node: Node<H>, segs: seq<string>, m: Method, shape: seq<Choice>)
    requires Matches(shape, segs) && Lookup(node, shape, m).Some?
    ensures Reaches(node, segs)
    decreases |segs|
  {
    if segs != [] {
      if shape[0].Static? {
        ReachesComplete(ChildAt(node, segs[0]).value, segs[1..], m, shape[1..]);
      } else if shape[0].AnyOne? {
        ReachesComplete(node.param.value.node, segs[1..], m, shape[1..]);
      }
    }
  }

  lemma {:induction false} ReachesSound<H>(node: Node<H>, segs: seq<string>) returns (shape: seq<Choice>, m: Method)
    requires Reaches(node, segs)
    ensures Matches(shape, segs) && Lookup(node, shape, m).Some?
    decreases |segs|
  {
    if segs == [] {
      shape := [];
      m := FirstMethod(node.handlers);
    } else {
      var c := ChildAt(node, segs[0]);
      if c.Some? && Reaches(c.value, segs[1..]) {
        var rest;
        rest, m := ReachesSound(c.value, segs[1..]);
        shape := [Static(segs[0])] + rest;
        assert shape[1..] == rest;
      } else if node.param.Some? && Reaches(node.param.value.node, segs[1..]) {
        var rest;
        rest, m := ReachesSound(node.param.value.node, segs[1..]);
        shape := [AnyOne] + rest;
        assert shape[1..] == rest;
      } else {
        shape := [Rest];
        m := FirstMethod(node.wildcard.value.handlers);
      }
    }
  }

  lemma FirstMethod<H>(handlers: map<Method, H>) returns (m: Method)
    requires handlers != map[]
    ensures m in handlers
  {
    assert handlers.Keys != {};
    m :| m in handlers.Keys;
  }
}
