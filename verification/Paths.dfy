/** Splitting URL paths into the segments between slashes. */
module Paths {

  /** A piece of a path; the sentinel is the empty piece that marks a trailing slash. */
  datatype View = Run(start: nat, end: nat) | Sentinel

  predicate InPath(path: string, v: View) {
    v.Run? ==> v.start <= v.end <= |path|
  }

  function Text(path: string, v: View): string
    requires InPath(path, v)
  {
    if v.Run? then path[v.start..v.end] else ""
  }

  function Texts(path: string, vs: seq<View>): seq<string>
    requires forall i :: 0 <= i < |vs| ==> InPath(path, vs[i])
  {
    seq(|vs|, i requires 0 <= i < |vs| => Text(path, vs[i]))
  }

  /** The first slash at or after `i`, or the end of the path. */
  function SlashFrom(path: string, i: nat): (j: nat)
    requires i <= |path|
    ensures i <= j <= |path| && (j < |path| ==> path[j] == '/') && forall k :: i <= k < j ==> path[k] != '/'
    decreases |path| - i
  {
    if i == |path| || path[i] == '/' then i else SlashFrom(path, i + 1)
  }

  /** The runs of characters other than slashes, from position `i` on. */
  function Runs(path: string, i: nat): (vs: seq<View>)
    requires i <= |path|
    ensures forall k :: 0 <= k < |vs| ==> vs[k].Run? && i <= vs[k].start < vs[k].end <= |path|
    decreases |path| - i
  {
    if i == |path| then [] else
    var j := SlashFrom(path, i);
    if j == i then Runs(path, i + 1) else [Run(i, j)] + Runs(path, j)
  }

  /** Whether a run is bounded by slashes or the ends of the path, and holds none. */
  ghost predicate Maximal(path: string, v: View) {
    && v.Run? && v.start < v.end <= |path|
    && (v.start == 0 || path[v.start - 1] == '/') && (v.end == |path| || path[v.end] == '/')
    && forall k :: v.start <= k < v.end ==> path[k] != '/'
  }

  ghost predicate InOrder(vs: seq<View>) {
    forall j, k :: 0 <= j < k < |vs| && vs[j].Run? && vs[k].Run? ==> vs[j].end < vs[k].start
  }

  ghost predicate Covers(vs: seq<View>, p: nat) {
    exists k :: 0 <= k < |vs| && vs[k].Run? && vs[k].start <= p < vs[k].end
  }

  /** The segments of a path are maximal runs ... */
  lemma {:induction false} RunsMaximal(path: string, i: nat, k: nat)
    requires i <= |path| && (i == 0 || i == |path| || path[i - 1] == '/' || path[i] == '/')
    requires k < |Runs(path, i)|
    ensures Maximal(path, Runs(path, i)[k])
    decreases |path| - i
  {
    var j := SlashFrom(path, i);
    if j == i {
      RunsMaximal(path, i + 1, k);
    } else if k == 0 {
      assert Maximal(path, Run(i, j));
    } else {
      assert Runs(path, i)[k] == Runs(path, j)[k - 1];
      RunsMaximal(path, j, k - 1);
    }
  }

  /** ... in order ... */
  lemma {:induction false} RunsInOrder(path: string, i: nat)
    requires i <= |path|
    ensures InOrder(Runs(path, i))
    decreases |path| - i
  {
    if i < |path| {
      var j := SlashFrom(path, i);
      RunsInOrder(path, if j == i then i + 1 else j);
      assert i < j < |path| ==> Runs(path, j) == Runs(path, j + 1);
    }
  }

  /** ... and every character that is not a slash is in one of them. */
  lemma {:induction false} RunsCover(path: string, i: nat, p: nat)
    requires i <= p < |path| && path[p] != '/'
    ensures Covers(Runs(path, i), p)
    decreases |path| - i
  {
    var j, vs := SlashFrom(path, i), Runs(path, i);
    if j == i {
      RunsCover(path, i + 1, p);
    } else if p < j {
      assert vs[0] == Run(i, j);
    } else {
      RunsCover(path, j, p);
      var k :| 0 <= k < |Runs(path, j)| && Runs(path, j)[k].start <= p < Runs(path, j)[k].end;
      assert vs[k + 1] == Runs(path, j)[k];
    }
  }

  predicate TrailingSlash(path: string) {
    |path| > 1 && path[|path| - 1] == '/'
  }

  /** Segments of a request path: a trailing slash counts as one more, empty, segment. */
  function Views(path: string): (vs: seq<View>)
    ensures forall k :: 0 <= k < |vs| ==> InPath(path, vs[k])
  {
    Runs(path, 0) + if TrailingSlash(path) then [Sentinel] else []
  }

  /** Segments of a route path: a trailing slash is ignored. */
  function Segments(path: string): (segs: seq<string>)
    ensures forall k :: 0 <= k < |segs| ==> segs[k] != ""
  {
    Texts(path, Runs(path, 0))
  }

  /** One turn of the splitting loops. */
  lemma SplitStep(path: string, start: nat, done: seq<View>)
    requires start < |path| && Runs(path, 0) == done + Runs(path, start)
    ensures var pos := SlashFrom(path, start);
            var done' := if pos > start then done + [Run(start, pos)] else done;
            Runs(path, 0) == done' + Runs(path, if pos < |path| then pos + 1 else pos)
  {
  }

  method SplitPathView(path: string) returns (segments: seq<View>)
    ensures segments == Views(path)
  {
    segments := [];
    var start := 0;
    if path != "" && path[0] == '/' { start := 1; }
    while start < |path|
      invariant start <= |path| && Runs(path, 0) == segments + Runs(path, start)
    {
      SplitStep(path, start, segments);
      var pos := SlashFrom(path, start);
      if pos == |path| {
        segments := segments + [Run(start, pos)];
        start := pos;
        break;
      }
      if pos > start {
        segments := segments + [Run(start, pos)];
      }
      start := pos + 1;
    }
    if |path| > 1 && path[|path| - 1] == '/' {
      segments := segments + [Sentinel];
    }
  }

  lemma TextsAppend(path: string, vs: seq<View>, v: View)
    requires (forall i :: 0 <= i < |vs| ==> InPath(path, vs[i])) && InPath(path, v)
    ensures Texts(path, vs + [v]) == Texts(path, vs) + [Text(path, v)]
  {
  }

  method SplitPath(path: string) returns (segments: seq<string>)
    ensures segments == Segments(path)
  {
    segments := [];
    var start := 0;
    if path != "" && path[0] == '/' { start := 1; }
    ghost var views: seq<View> := [];
    while start < |path|
      invariant start <= |path| && Runs(path, 0) == views + Runs(path, start)
      invariant (forall k :: 0 <= k < |views| ==> InPath(path, views[k])) && segments == Texts(path, views)
    {
      SplitStep(path, start, views);
      var pos := SlashFrom(path, start);
      if pos == |path| {
        assert path[start..] == path[start..pos];
        TextsAppend(path, views, Run(start, pos));
        segments := segments + [path[start..]];
        views := views + [Run(start, pos)];
        start := pos;
        break;
      }
      if pos > start {
        TextsAppend(path, views, Run(start, pos));
        segments := segments + [path[start..pos]];
        views := views + [Run(start, pos)];
      }
      start := pos + 1;
    }
    assert views == Runs(path, 0);
  }
}
