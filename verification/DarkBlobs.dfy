/** Dark connected components of an image (src/captcha-solver.ts, extractDarkBlobs).

    A pixel is its index y * width + x. Darkness is an arbitrary predicate on
    indices: luma and alpha are not the point here. Only rows y0 <= y < y1 (the
    strip left by the two insets) take part. */
module DarkBlobs {
  import opened Common

  datatype Image = Image(width: int, height: int, dataLength: int, dark: int -> bool)
  datatype Options = Options(minCount: real, maxCount: real, topInset: real, bottomInset: real)
  datatype Blob = Blob(x: int, y: int, width: int, height: int, count: int, cx: real, cy: real)
  datatype Axis = X | Y
  datatype Box = Box(minx: int, miny: int, maxx: int, maxy: int)

  /** The part of an image that is searched. */
  datatype Strip = Strip(width: int, height: int, y0: int, y1: int, dark: int -> bool) {
    ghost predicate Valid() {
      0 < width && 0 <= y0 < y1 <= height
    }

    function Coord(axis: Axis, p: int): int
      requires 0 < width
    {
      if axis == X then p % width else p / width
    }

    /** Dark pixels whose row lies in the strip. */
    ghost function Dark(): set<int>
      requires Valid()
    {
      set p | 0 <= p < height * width && y0 <= p / width < y1 && dark(p)
    }

    /** 4-adjacency, by coordinates. */
    ghost predicate Adjacent(p: int, q: int)
      requires 0 < width
    {
      var dx := Coord(X, p) - Coord(X, q);
      var dy := Coord(Y, p) - Coord(Y, q);
      || (dx == 0 && (dy == 1 || dy == -1))
      || (dy == 0 && (dx == 1 || dx == -1))
    }

    ghost predicate IsPath(path: seq<int>, a: int, b: int)
      requires Valid()
    {
      && 0 < |path| && path[0] == a && path[|path| - 1] == b
      && (forall i :: 0 <= i < |path| ==> path[i] in Dark())
      && (forall i :: 0 <= i < |path| - 1 ==> Adjacent(path[i], path[i + 1]))
    }

    ghost predicate Connected(a: int, b: int)
      requires Valid()
    {
      exists path :: IsPath(path, a, b)
    }

    ghost function Component(a: int): set<int>
      requires Valid()
    {
      set b | b in Dark() && Connected(a, b)
    }

    /** The first pixel of its component in raster order. */
    ghost predicate IsRoot(p: int)
      requires Valid()
    {
      p in Dark() && forall q :: q in Component(p) ==> p <= q
    }

    /** No dark pixel outside s is adjacent to a pixel of s. */
    ghost predicate Closed(s: set<int>)
      requires Valid()
    {
      forall p, q :: p in s && q in Dark() && Adjacent(p, q) ==> q in s
    }

    /** The exact bounding box: it covers s and every side is attained. */
    ghost predicate IsBox(b: Box, s: set<int>)
      requires Valid()
    {
      && (forall p :: p in s ==> b.minx <= Coord(X, p) <= b.maxx && b.miny <= Coord(Y, p) <= b.maxy)
      && (exists p :: p in s && Coord(X, p) == b.minx) && (exists p :: p in s && Coord(X, p) == b.maxx)
      && (exists p :: p in s && Coord(Y, p) == b.miny) && (exists p :: p in s && Coord(Y, p) == b.maxy)
    }

    /** Sum of one coordinate over the members of s below n. */
    ghost function Sum(axis: Axis, s: set<int>, n: int): int
      requires Valid()
      decreases n
    {
      if n <= 0 then 0 else Sum(axis, s, n - 1) + if n - 1 in s then Coord(axis, n - 1) else 0
    }
  }

  // ---- connectivity is an equivalence on dark pixels ----

  lemma ConnectedRefl(g: Strip, a: int)
    requires g.Valid() && a in g.Dark()
    ensures g.Connected(a, a)
  {
    assert g.IsPath([a], a, a);
  }

  lemma ConnectedExtend(g: Strip, a: int, b: int, c: int)
    requires g.Valid() && g.Connected(a, b) && c in g.Dark() && g.Adjacent(b, c)
    ensures g.Connected(a, c)
  {
    var path :| g.IsPath(path, a, b);
    assert g.IsPath(path + [c], a, c);
  }

  lemma {:induction false} PathStaysIn(g: Strip, s: set<int>, path: seq<int>, a: int, b: int)
    requires g.Valid() && g.Closed(s) && a in s && g.IsPath(path, a, b)
    ensures b in s
    decreases |path|
  {
    if |path| > 1 {
      assert g.Adjacent(path[0], path[0 + 1]);
      assert path[1] in g.Dark();
      var rest := path[1..];
      forall i | 0 <= i < |rest| - 1 ensures g.Adjacent(rest[i], rest[i + 1]) {
        assert g.Adjacent(path[i + 1], path[i + 1 + 1]);
      }
      PathStaysIn(g, s, rest, path[1], b);
    }
  }

  /** A closed set contains the component of each of its members. */
  lemma ClosedContainsComponent(g: Strip, s: set<int>, a: int)
    requires g.Valid() && g.Closed(s) && a in s
    ensures g.Component(a) <= s
  {
    forall b | b in g.Component(a) ensures b in s {
      var path :| g.IsPath(path, a, b);
      PathStaysIn(g, s, path, a, b);
    }
  }

  lemma ComponentClosed(g: Strip, a: int)
    requires g.Valid()
    ensures g.Closed(g.Component(a))
  {
    forall p, q | p in g.Component(a) && q in g.Dark() && g.Adjacent(p, q) ensures q in g.Component(a) {
      ConnectedExtend(g, a, p, q);
    }
  }

  lemma {:induction false} ConnectedSymmetric(g: Strip, path: seq<int>, a: int, b: int)
    requires g.Valid() && g.IsPath(path, a, b)
    ensures g.Connected(b, a)
    decreases |path|
  {
    if |path| == 1 {
      ConnectedRefl(g, a);
    } else {
      var front := path[..|path| - 1];
      var c := path[|path| - 2];
      assert g.Adjacent(path[|path| - 2], path[|path| - 2 + 1]);
      assert c in g.Dark() && b in g.Dark();
      assert g.IsPath(front, a, c);
      ConnectedSymmetric(g, front, a, c);
      ConnectedRefl(g, b);
      ConnectedExtend(g, b, b, c);
      ComponentClosed(g, b);
      ClosedContainsComponent(g, g.Component(b), c);
      assert a in g.Component(c);
    }
  }

  /** Connected pixels have one and the same component: components partition the dark pixels. */
  lemma ComponentEq(g: Strip, a: int, b: int)
    requires g.Valid() && a in g.Dark() && b in g.Component(a)
    ensures g.Component(a) == g.Component(b)
    ensures a in g.Component(a)
  {
    ConnectedRefl(g, a);
    var path :| g.IsPath(path, a, b);
    ConnectedSymmetric(g, path, a, b);
    ComponentClosed(g, a);
    ComponentClosed(g, b);
    ClosedContainsComponent(g, g.Component(a), b);
    assert a in g.Component(b);
    ClosedContainsComponent(g, g.Component(b), a);
  }

  // ---- one component: the explicit-stack fill ----

  /** The in-image neighbours of p, as the source lists them. */
  function Neighbors(g: Strip, p: int): seq<int>
    requires g.Valid()
  {
    var px, py := g.Coord(X, p), g.Coord(Y, p);
    (if px > 0 then [p - 1] else []) +
    (if px + 1 < g.width then [p + 1] else []) +
    (if py > 0 then [p - g.width] else []) +
    (if py + 1 < g.height then [p + g.width] else [])
  }

  lemma MulSign(d: int, w: int)
    requires 0 < w
    ensures 1 <= d ==> w <= d * w
    ensures d <= -1 ==> d * w <= -w
    ensures d == 0 ==> d * w == 0
  {
  }

  lemma DivMod(w: int, x: int, y: int)
    requires 0 < w && 0 <= x < w
    ensures (y * w + x) / w == y && (y * w + x) % w == x
  {
    var q, r := (y * w + x) / w, (y * w + x) % w;
    assert y * w + x == q * w + r && 0 <= r < w;
    assert (y - q) * w == y * w - q * w;
    MulSign(y - q, w);
  }

  /** Index range and coordinate range agree. */
  lemma InImage(g: Strip, p: int)
    requires g.Valid()
    ensures p == g.Coord(Y, p) * g.width + g.Coord(X, p) && 0 <= g.Coord(X, p) < g.width
    ensures 0 <= p < g.height * g.width <==> 0 <= g.Coord(Y, p) < g.height
  {
    var x, y, w, h := p % g.width, p / g.width, g.width, g.height;
    assert p == y * w + x;
    MulSign(y, w);
    MulSign(h - y, w);
    assert (h - y) * w == h * w - y * w;
  }

  /** Where the four index steps from pixel (x, y) lead, in a row-major image of width w. */
  lemma Steps(w: int, x: int, y: int, u: int, v: int)
    requires 0 < w && 0 <= x < w && 0 <= u < w
    ensures var p, q := y * w + x, v * w + u;
      && (q == p - w <==> u == x && v == y - 1)
      && (q == p + w <==> u == x && v == y + 1)
      && (x > 0 ==> (q == p - 1 <==> u == x - 1 && v == y))
      && (x + 1 < w ==> (q == p + 1 <==> u == x + 1 && v == y))
  {
    assert (y - v) * w == y * w - v * w;
    assert (y - 1 - v) * w == y * w - w - v * w;
    assert (y + 1 - v) * w == y * w + w - v * w;
    MulSign(y - v, w);
    MulSign(y - 1 - v, w);
    MulSign(y + 1 - v, w);
  }

  lemma NeighborsMember(g: Strip, p: int, q: int)
    requires g.Valid()
    ensures var x, y := g.Coord(X, p), g.Coord(Y, p);
      q in Neighbors(g, p) <==>
      || (x > 0 && q == p - 1) || (x + 1 < g.width && q == p + 1)
      || (y > 0 && q == p - g.width) || (y + 1 < g.height && q == p + g.width)
  {
  }

  /** Inside the image, the listed neighbours are exactly the 4-adjacent pixels. */
  lemma NeighborsExact(g: Strip, p: int, q: int)
    requires g.Valid() && 0 <= p < g.height * g.width
    ensures q in Neighbors(g, p) <==> 0 <= q < g.height * g.width && g.Adjacent(p, q)
  {
    InImage(g, p);
    InImage(g, q);
    Steps(g.width, g.Coord(X, p), g.Coord(Y, p), g.Coord(X, q), g.Coord(Y, q));
    NeighborsMember(g, p, q);
  }

  ghost function Elements(s: seq<int>): set<int> {
    set p | p in s
  }

  ghost predicate Marks(visited: array<bool>, s: set<int>)
    reads visited
  {
    && (forall p :: p in s ==> 0 <= p < visited.Length)
    && forall p :: 0 <= p < visited.Length ==> (visited[p] <==> p in s)
  }

  /** Not yet visited dark strip neighbours of p. */
  ghost function Fresh(g: Strip, p: int, seen: set<int>): set<int>
    requires g.Valid()
  {
    set q | q in g.Dark() && g.Adjacent(p, q) && q !in seen
  }

  /** Push and mark every unvisited dark neighbour of p in the strip. */
  method PushNeighbors(g: Strip, visited: array<bool>, p: int, stack: seq<int>, ghost seen: set<int>)
    returns (grown: seq<int>)
    requires g.Valid() && visited.Length == g.height * g.width && 0 <= p < visited.Length
    requires Marks(visited, seen)
    modifies visited
    ensures stack <= grown && NoDuplicates(grown[|stack|..])
    ensures Elements(grown[|stack|..]) == Fresh(g, p, seen)
    ensures Marks(visited, seen + Fresh(g, p, seen))
  {
    var neighbors := Neighbors(g, p);
    grown := stack;
    ghost var added: seq<int> := [];
    for i := 0 to |neighbors|
      invariant grown == stack + added && NoDuplicates(added)
      invariant Elements(added) == set q | q in neighbors[..i] && q in g.Dark() && q !in seen
      invariant Marks(visited, seen + Elements(added))
    {
      var n := neighbors[i];
      assert neighbors[..i + 1] == neighbors[..i] + [n];
      assert n in neighbors;
      NeighborsExact(g, p, n);
      if visited[n] { continue; }
      var ny := n / g.width;
      if ny < g.y0 || ny >= g.y1 { continue; }
      if !g.dark(n) { continue; }
      visited[n] := true;
      grown := grown + [n];
      assert Elements(added + [n]) == Elements(added) + {n};
      added := added + [n];
    }
    assert grown[|stack|..] == added;
    forall q ensures q in Elements(added) <==> q in Fresh(g, p, seen) {
      NeighborsExact(g, p, q);
    }
  }

  lemma {:induction false} SumAdd(g: Strip, axis: Axis, s: set<int>, p: int, n: int)
    requires g.Valid() && p !in s && 0 <= p
    ensures g.Sum(axis, s + {p}, n) == g.Sum(axis, s, n) + if p < n then g.Coord(axis, p) else 0
    decreases n
  {
    if n > 0 {
      SumAdd(g, axis, s, p, n - 1);
    }
  }

  lemma {:induction false} SumEmpty(g: Strip, axis: Axis, n: int)
    requires g.Valid()
    ensures g.Sum(axis, {}, n) == 0
    decreases n
  {
    if n > 0 {
      SumEmpty(g, axis, n - 1);
    }
  }

  lemma ElementsConcat(a: seq<int>, b: seq<int>)
    ensures Elements(a + b) == Elements(a) + Elements(b)
  {
  }

  lemma {:induction false} NoDuplicatesSize(s: seq<int>)
    requires NoDuplicates(s)
    ensures |Elements(s)| == |s|
  {
    if s == [] {
      assert Elements(s) == {};
    } else {
      var front, last := s[..|s| - 1], s[|s| - 1];
      assert s == front + [last];
      ElementsConcat(front, [last]);
      NoDuplicatesSize(front);
      assert last !in Elements(front);
      assert Elements(s) == Elements(front) + {last};
    }
  }

  /** Growing the exact box of s by a pixel gives the exact box of s with the pixel. */
  lemma BoxGrow(g: Strip, b: Box, s: set<int>, p: int)
    requires g.Valid() && (s != {} ==> g.IsBox(b, s))
    ensures s != {} ==> g.IsBox(Grown(g, b, p), s + {p})
  {
    if s != {} {
      var c := Grown(g, b, p);
      var t := s + {p};
      assert p in t;
      var l :| l in s && g.Coord(X, l) == b.minx;
      var r :| r in s && g.Coord(X, r) == b.maxx;
      var u :| u in s && g.Coord(Y, u) == b.miny;
      var d :| d in s && g.Coord(Y, d) == b.maxy;
      assert l in t && r in t && u in t && d in t;
    }
  }

  function Grown(g: Strip, b: Box, p: int): Box
    requires 0 < g.width
  {
    var px, py := g.Coord(X, p), g.Coord(Y, p);
    Box(if px < b.minx then px else b.minx, if py < b.miny then py else b.miny,
        if px > b.maxx then px else b.maxx, if py > b.maxy then py else b.maxy)
  }

  ghost function Marked(popped: seq<int>, stack: seq<int>): set<int> {
    Elements(popped) + Elements(stack)
  }

  /** What the fill has established: marked pixels are popped or still on the stack. */
  ghost predicate FillState(g: Strip, start: int, seen: set<int>, popped: seq<int>, stack: seq<int>)
    requires g.Valid()
  {
    var marked := Marked(popped, stack);
    && NoDuplicates(popped) && NoDuplicates(stack) && Elements(popped) !! Elements(stack)
    && start in marked && marked <= g.Component(start) && marked !! seen
    && forall p :: p in Elements(popped) ==> Fresh(g, p, seen + marked) == {}
  }

  lemma FreshGrow(g: Strip, p: int, s: set<int>, t: set<int>)
    requires g.Valid() && s <= t
    ensures Fresh(g, p, t) <= Fresh(g, p, s)
    ensures Fresh(g, p, s + Fresh(g, p, s)) == {}
    ensures Fresh(g, p, s) !! s
  {
  }

  lemma FreshInComponent(g: Strip, a: int, p: int, s: set<int>)
    requires g.Valid() && p in g.Component(a)
    ensures Fresh(g, p, s) <= g.Component(a)
  {
    ComponentClosed(g, a);
  }

  /** Sequence bookkeeping of one round: pop p off the stack, push the new pixels. */
  lemma PopPush(popped: seq<int>, stack: seq<int>, grown: seq<int>)
    requires stack != [] && NoDuplicates(popped) && NoDuplicates(stack)
    requires Elements(popped) !! Elements(stack)
    requires var rest := stack[..|stack| - 1];
      rest <= grown && NoDuplicates(grown[|rest|..])
      && Elements(grown[|rest|..]) !! Elements(popped) + Elements(stack)
    ensures var p, added := stack[|stack| - 1], Elements(grown[|stack| - 1..]);
      && NoDuplicates(popped + [p]) && NoDuplicates(grown)
      && Elements(popped + [p]) !! Elements(grown)
      && Elements(popped + [p]) == Elements(popped) + {p}
      && Elements(popped + [p]) + Elements(grown) == Elements(popped) + Elements(stack) + added
  {
    var rest, p := stack[..|stack| - 1], stack[|stack| - 1];
    var added := grown[|rest|..];
    assert stack == rest + [p] && grown == rest + added;
    ElementsConcat(rest, [p]);
    ElementsConcat(rest, added);
    ElementsConcat(popped, [p]);
    assert Elements([p]) == {p};
    assert p in Elements(stack) && p !in Elements(rest);
    forall i, j | 0 <= i < j < |grown| ensures grown[i] != grown[j] {
      if i < |rest| <= j {
        assert grown[i] in Elements(stack) && grown[j] == added[j - |rest|] && grown[j] in Elements(added);
      } else if i >= |rest| {
        assert added[i - |rest|] != added[j - |rest|];
      }
    }
  }

  lemma FillStep(g: Strip, start: int, seen: set<int>, popped: seq<int>, stack: seq<int>, grown: seq<int>)
    requires g.Valid() && stack != [] && FillState(g, start, seen, popped, stack)
    requires stack[..|stack| - 1] <= grown && NoDuplicates(grown[|stack| - 1..])
    requires Elements(grown[|stack| - 1..])
      == Fresh(g, stack[|stack| - 1], seen + (Elements(popped) + Elements(stack)))
    ensures FillState(g, start, seen, popped + [stack[|stack| - 1]], grown)
  {
    var p := stack[|stack| - 1];
    var marked := Elements(popped) + Elements(stack);
    var marked' := Elements(popped + [p]) + Elements(grown);
    FreshGrow(g, p, seen + marked, seen + marked);
    PopPush(popped, stack, grown);
    assert p in Elements(stack);
    FreshInComponent(g, start, p, seen + marked);
    assert seen + marked' == seen + marked + Fresh(g, p, seen + marked);
    forall q | q in Elements(popped + [p]) ensures Fresh(g, q, seen + marked') == {} {
      if q in Elements(popped) {
        FreshGrow(g, q, seen + marked, seen + marked');
      }
    }
  }

  /** When the stack is empty the popped pixels are the whole component. */
  lemma FillDone(g: Strip, start: int, seen: set<int>, popped: seq<int>)
    requires g.Valid() && g.Closed(seen) && seen <= g.Dark() && FillState(g, start, seen, popped, [])
    ensures Elements(popped) == g.Component(start)
  {
    var s := Elements(popped);
    forall p, q | p in s && q in g.Dark() && g.Adjacent(p, q) ensures q in s {
      assert q !in Fresh(g, p, seen + (s + Elements([])));
      if q in seen {
        assert g.Adjacent(q, p);
      }
    }
    ClosedContainsComponent(g, s, start);
  }

  /** Running count, sums and box of the popped pixels (the box also covers the start). */
  ghost predicate Totals(g: Strip, start: int, popped: seq<int>, count: int, sx: int, sy: int, box: Box)
    requires g.Valid()
  {
    && count == |popped|
    && g.IsBox(box, Elements(popped) + {start})
    && sx == g.Sum(X, Elements(popped), g.height * g.width)
    && sy == g.Sum(Y, Elements(popped), g.height * g.width)
  }

  lemma TotalsInit(g: Strip, start: int, box: Box)
    requires g.Valid() && box == Box(g.Coord(X, start), g.Coord(Y, start), g.Coord(X, start), g.Coord(Y, start))
    ensures Totals(g, start, [], 0, 0, 0, box)
  {
    SumEmpty(g, X, g.height * g.width);
    SumEmpty(g, Y, g.height * g.width);
    assert Elements([]) == {};
    assert start in Elements([]) + {start};
  }

  lemma TotalsStep(g: Strip, start: int, popped: seq<int>, count: int, sx: int, sy: int, box: Box, p: int)
    requires g.Valid() && Totals(g, start, popped, count, sx, sy, box)
    requires p in g.Dark() && p !in Elements(popped)
    ensures Totals(g, start, popped + [p], count + 1, sx + g.Coord(X, p), sy + g.Coord(Y, p), Grown(g, box, p))
  {
    var n := g.height * g.width;
    SumAdd(g, X, Elements(popped), p, n);
    SumAdd(g, Y, Elements(popped), p, n);
    BoxGrow(g, box, Elements(popped) + {start}, p);
    ElementsConcat(popped, [p]);
    assert Elements([p]) == {p};
    assert Elements(popped) + {start} + {p} == Elements(popped + [p]) + {start};
  }

  lemma TopIsDark(g: Strip, start: int, seen: set<int>, popped: seq<int>, stack: seq<int>)
    requires g.Valid() && stack != [] && FillState(g, start, seen, popped, stack)
    ensures var p := stack[|stack| - 1];
      p in g.Dark() && 0 <= p < g.height * g.width && p !in Elements(popped)
  {
    assert stack[|stack| - 1] in Elements(stack);
  }

  /** One round of the fill keeps its invariants. */
  lemma FillRound(g: Strip, start: int, seen: set<int>, popped: seq<int>, stack: seq<int>, grown: seq<int>,
                  count: int, sx: int, sy: int, box: Box)
    requires g.Valid() && stack != [] && FillState(g, start, seen, popped, stack)
    requires Totals(g, start, popped, count, sx, sy, box)
    requires stack[..|stack| - 1] <= grown && NoDuplicates(grown[|stack| - 1..])
    requires Elements(grown[|stack| - 1..]) == Fresh(g, stack[|stack| - 1], seen + Marked(popped, stack))
    ensures var p := stack[|stack| - 1];
      && FillState(g, start, seen, popped + [p], grown)
      && Totals(g, start, popped + [p], count + 1, sx + g.Coord(X, p), sy + g.Coord(Y, p), Grown(g, box, p))
      && seen + Marked(popped + [p], grown)
         == seen + Marked(popped, stack) + Fresh(g, p, seen + Marked(popped, stack))
      && g.Dark() - Elements(popped + [p]) < g.Dark() - Elements(popped)
  {
    var p, old' := stack[|stack| - 1], seen + Marked(popped, stack);
    TopIsDark(g, start, seen, popped, stack);
    TotalsStep(g, start, popped, count, sx, sy, box, p);
    FillStep(g, start, seen, popped, stack, grown);
    FreshGrow(g, p, old', old');
    PopPush(popped, stack, grown);
  }

  lemma FillStart(g: Strip, start: int, seen: set<int>, box: Box)
    requires g.Valid() && start in g.Dark() && start !in seen
    requires box == Box(g.Coord(X, start), g.Coord(Y, start), g.Coord(X, start), g.Coord(Y, start))
    ensures FillState(g, start, seen, [], [start]) && Totals(g, start, [], 0, 0, 0, box)
    ensures Marked([], [start]) == {start} && 0 <= start < g.height * g.width
  {
    ConnectedRefl(g, start);
    TotalsInit(g, start, box);
    assert Elements([start]) == {start} && Elements([]) == {};
  }

  lemma FillEnd(g: Strip, start: int, seen: set<int>, popped: seq<int>, count: int, sx: int, sy: int, box: Box)
    requires g.Valid() && g.Closed(seen) && seen <= g.Dark()
    requires FillState(g, start, seen, popped, []) && Totals(g, start, popped, count, sx, sy, box)
    ensures NoDuplicates(popped) && Elements(popped) == g.Component(start) && seen !! g.Component(start)
    ensures Marked(popped, []) == g.Component(start)
    ensures count == |g.Component(start)| && g.IsBox(box, g.Component(start))
    ensures sx == g.Sum(X, g.Component(start), g.height * g.width)
    ensures sy == g.Sum(Y, g.Component(start), g.height * g.width)
  {
    FillDone(g, start, seen, popped);
    NoDuplicatesSize(popped);
    hide Fresh, Strip.Sum, Strip.IsBox, Strip.Component, Strip.Closed, Strip.Dark;
    assert Elements([]) == {};
    assert Elements(popped) + {start} == Elements(popped);
  }

  /** Pop, account and push until the component of `start` is exhausted. */
  method Fill(g: Strip, visited: array<bool>, start: int, ghost seen: set<int>)
    returns (count: int, sx: int, sy: int, box: Box, ghost popped: seq<int>)
    requires g.Valid() && visited.Length == g.height * g.width
    requires Marks(visited, seen) && seen <= g.Dark() && g.Closed(seen)
    requires start in g.Dark() && start !in seen
    modifies visited
    ensures NoDuplicates(popped) && Elements(popped) == g.Component(start) && seen !! g.Component(start)
    ensures Marks(visited, seen + g.Component(start))
    ensures count == |g.Component(start)| && g.IsBox(box, g.Component(start))
    ensures sx == g.Sum(X, g.Component(start), g.height * g.width)
    ensures sy == g.Sum(Y, g.Component(start), g.height * g.width)
  {
    box := Box(g.Coord(X, start), g.Coord(Y, start), g.Coord(X, start), g.Coord(Y, start));
    count, sx, sy, popped := 0, 0, 0, [];
    var stack := [start];
    visited[start] := true;
    FillStart(g, start, seen, box);
    while stack != []
      invariant FillState(g, start, seen, popped, stack)
      invariant Totals(g, start, popped, count, sx, sy, box)
      invariant Marks(visited, seen + Marked(popped, stack))
      decreases g.Dark() - Elements(popped)
    {
      var p := stack[|stack| - 1];
      TopIsDark(g, start, seen, popped, stack);
      var grown := PushNeighbors(g, visited, p, stack[..|stack| - 1], seen + Marked(popped, stack));
      FillRound(g, start, seen, popped, stack, grown, count, sx, sy, box);
      count, sx, sy, box := count + 1, sx + g.Coord(X, p), sy + g.Coord(Y, p), Grown(g, box, p);
      popped, stack := popped + [p], grown;
    }
    FillEnd(g, start, seen, popped, count, sx, sy, box);
  }

  // ---- the whole scan ----

  /** The rows left by the insets (fractions of the height). */
  function StripOf(image: Image, o: Options): (g: Strip)
    requires 0 < image.width && 0 < image.height
    ensures g.width == image.width && g.height == image.height && 0 <= g.y0 < g.y1 <= g.height && g.dark == image.dark
  {
    var topInset := Max(0, (image.height as real * o.topInset).Floor);
    var bottomInset := Max(0, (image.height as real * o.bottomInset).Floor);
    var y0 := Min(image.height - 1, topInset);
    Strip(image.width, image.height, y0, Max(y0 + 1, image.height - bottomInset), image.dark)
  }

  /** A row is searched if neither inset covers all of it. The last row is never above the strip, and
      the strip's first row is never below it. */
  lemma RowsOfStrip(image: Image, o: Options, y: int)
    requires 0 < image.width && 0 <= y < image.height
    ensures var g := StripOf(image, o);
      && (g.y0 <= y <==> y == g.height - 1 || g.height as real * o.topInset < (y + 1) as real)
      && (y < g.y1 <==> y <= g.y0 || g.height as real * o.bottomInset < (g.height - y) as real)
  {
  }

  /** Neither too small nor too large nor a wide flat bar. */
  predicate Kept(g: Strip, o: Options, count: int, box: Box) {
    var bw, bh := box.maxx - box.minx + 1, box.maxy - box.miny + 1;
    && o.minCount <= count as real <= o.maxCount
    && !(bw as real > g.width as real * 0.92 && (bh as real) < g.height as real * 0.22)
  }

  lemma NoMembers(s: set<int>)
    ensures (forall p :: p !in s) ==> s == {}
  {
    if forall p :: p !in s { assert s == {}; }
  }

  lemma {:induction false} BoxExists(g: Strip, s: set<int>)
    requires g.Valid() && s != {}
    ensures exists b :: g.IsBox(b, s)
    decreases |s|
  {
    NoMembers(s);
    var p :| p in s;
    var rest := s - {p};
    if rest == {} {
      assert s == {p};
      assert g.IsBox(Box(g.Coord(X, p), g.Coord(Y, p), g.Coord(X, p), g.Coord(Y, p)), s);
    } else {
      BoxExists(g, rest);
      var b :| g.IsBox(b, rest);
      BoxGrow(g, b, rest, p);
      assert rest + {p} == s;
    }
  }

  lemma BoxUnique(g: Strip, b: Box, c: Box, s: set<int>)
    requires g.Valid() && g.IsBox(b, s) && g.IsBox(c, s)
    ensures b == c
  {
  }

  function MakeBlob(b: Box, count: int, sx: int, sy: int): Blob
    requires 0 < count
  {
    Blob(b.minx, b.miny, b.maxx - b.minx + 1, b.maxy - b.miny + 1, count,
         sx as real / count as real, sy as real / count as real)
  }

  ghost predicate IsMean(m: real, sum: int, count: nat) {
    m * count as real == sum as real
  }

  /** The report gives the component's exact box, its size, and its centre: the mean of each coordinate. */
  ghost predicate Describes(g: Strip, blob: Blob, c: set<int>)
    requires g.Valid()
  {
    var n := g.height * g.width;
    && g.IsBox(Box(blob.x, blob.y, blob.x + blob.width - 1, blob.y + blob.height - 1), c)
    && blob.count == |c|
    && IsMean(blob.cx, g.Sum(X, c, n), |c|) && IsMean(blob.cy, g.Sum(Y, c, n), |c|)
  }

  /** The component is within the limits, and its box is at most 92 percent of the width or at
      least 22 percent of the height. */
  ghost predicate IsKept(g: Strip, o: Options, c: set<int>)
    requires g.Valid()
  {
    && o.minCount <= |c| as real && |c| as real <= o.maxCount
    && exists b :: g.IsBox(b, c) && (100 * (b.maxx - b.minx + 1) <= 92 * g.width || 100 * (b.maxy - b.miny + 1) >= 22 * g.height)
  }

  ghost predicate IsKeptRoot(g: Strip, o: Options, p: int)
    requires g.Valid()
  {
    g.IsRoot(p) && IsKept(g, o, g.Component(p))
  }

  ghost predicate IsReportOf(g: Strip, o: Options, p: int, blob: Blob)
    requires g.Valid()
  {
    IsKeptRoot(g, o, p) && Describes(g, blob, g.Component(p))
  }

  /** Report k describes the k-th kept component; no component is missed, repeated or out of order. */
  ghost predicate Exact(g: Strip, o: Options, n: int, roots: seq<int>, blobs: seq<Blob>)
    requires g.Valid()
  {
    && |blobs| == |roots|
    && (forall p :: p in roots <==> 0 <= p < n && IsKeptRoot(g, o, p))
    && (forall k :: 0 <= k < |roots| ==> IsReportOf(g, o, roots[k], blobs[k]))
    && (forall i, j :: 0 <= i < j < |roots| ==> roots[i] < roots[j])
  }

  lemma ExactSkip(g: Strip, o: Options, a: int, b: int, roots: seq<int>, blobs: seq<Blob>)
    requires g.Valid() && Exact(g, o, a, roots, blobs) && a <= b
    requires forall p :: a <= p < b ==> !IsKeptRoot(g, o, p)
    ensures Exact(g, o, b, roots, blobs)
  {
  }

  lemma ExactAdd(g: Strip, o: Options, n: int, roots: seq<int>, blobs: seq<Blob>, blob: Blob)
    requires g.Valid() && 0 <= n && Exact(g, o, n, roots, blobs) && IsReportOf(g, o, n, blob)
    ensures Exact(g, o, n + 1, roots + [n], blobs + [blob])
  {
    hide IsKeptRoot, Describes;
    forall p ensures p in roots + [n] <==> 0 <= p < n + 1 && IsKeptRoot(g, o, p) {
      assert p in roots + [n] <==> p in roots || p == n;
    }
    forall i | 0 <= i < |roots| ensures roots[i] < n {
      assert roots[i] in roots;
    }
  }

  /** Dark pixels whose component has a pixel below n: what the scan has visited before index n. */
  ghost function Seen(g: Strip, n: int): set<int>
    requires g.Valid()
  {
    set q | q in g.Dark() && exists r :: r < n && r in g.Component(q)
  }

  lemma SeenClosed(g: Strip, n: int)
    requires g.Valid()
    ensures g.Closed(Seen(g, n)) && Seen(g, n) <= g.Dark()
  {
    forall p, q | p in Seen(g, n) && q in g.Dark() && g.Adjacent(p, q) ensures q in Seen(g, n) {
      var r :| r < n && r in g.Component(p);
      ConnectedRefl(g, p);
      ConnectedExtend(g, p, p, q);
      ComponentEq(g, p, q);
    }
  }

  /** The root test of the scan: an unvisited dark pixel is the first of its component. */
  lemma UnseenIsRoot(g: Strip, p: int)
    requires g.Valid() && p in g.Dark()
    ensures p !in Seen(g, p) <==> g.IsRoot(p)
  {
  }

  lemma SeenNext(g: Strip, p: int)
    requires g.Valid()
    ensures Seen(g, p + 1) == Seen(g, p) + if g.IsRoot(p) then g.Component(p) else {}
  {
    forall q | q in g.Dark() && p in g.Component(q) ensures p in g.Dark() && g.Component(q) == g.Component(p) {
      ComponentEq(g, q, p);
    }
    forall q | g.IsRoot(p) && q in g.Component(p) ensures p in g.Component(q) {
      ComponentEq(g, p, q);
    }
    forall q | q in Seen(g, p + 1) && q !in Seen(g, p) ensures g.IsRoot(p) && q in g.Component(p) {
      var r :| r < p + 1 && r in g.Component(q);
      assert r == p;
      ConnectedRefl(g, q);
    }
  }

  /** Indices outside the strip hold no dark pixel of the strip. */
  lemma OutsideStrip(g: Strip, p: int)
    requires g.Valid() && p in g.Dark()
    ensures g.y0 * g.width <= p < g.y1 * g.width
  {
    InImage(g, p);
    var y, w := g.Coord(Y, p), g.width;
    MulSign(y - g.y0, w);
    MulSign(g.y1 - y, w);
    assert (y - g.y0) * w == y * w - g.y0 * w && (g.y1 - y) * w == g.y1 * w - y * w;
  }

  /** State of the raster scan before index n. */
  ghost predicate ScanState(g: Strip, o: Options, n: int, roots: seq<int>, blobs: seq<Blob>, popped: seq<int>)
    requires g.Valid()
  {
    Exact(g, o, n, roots, blobs) && NoDuplicates(popped) && Elements(popped) == Seen(g, n)
  }

  lemma {:induction false} ScanStart(g: Strip, o: Options)
    requires g.Valid()
    ensures ScanState(g, o, g.y0 * g.width, [], [], []) && Seen(g, g.y0 * g.width) == {}
  {
    var n := g.y0 * g.width;
    MulSign(g.y0, g.width);
    forall p | p in g.Dark() ensures n <= p { OutsideStrip(g, p); }
    assert Exact(g, o, 0, [], []);
    ExactSkip(g, o, 0, n, [], []);
    assert Seen(g, n) == {};
    assert Elements([]) == {};
  }

  lemma SeenAll(g: Strip)
    requires g.Valid()
    ensures Seen(g, g.y1 * g.width) == g.Dark()
  {
    forall p | p in g.Dark() ensures p in Seen(g, g.y1 * g.width) {
      OutsideStrip(g, p);
      ConnectedRefl(g, p);
      assert p in g.Component(p);
    }
  }

  lemma StripInImage(g: Strip)
    requires g.Valid()
    ensures 0 <= g.y0 * g.width <= g.y1 * g.width <= g.height * g.width
  {
    MulSign(g.y0, g.width);
    MulSign(g.y1 - g.y0, g.width);
    MulSign(g.height - g.y1, g.width);
    assert (g.y1 - g.y0) * g.width == g.y1 * g.width - g.y0 * g.width;
    assert (g.height - g.y1) * g.width == g.height * g.width - g.y1 * g.width;
  }

  lemma ScanEnd(g: Strip, o: Options, end: int, roots: seq<int>, blobs: seq<Blob>, popped: seq<int>)
    requires g.Valid() && end == g.y1 * g.width && ScanState(g, o, end, roots, blobs, popped)
    ensures Exact(g, o, g.height * g.width, roots, blobs) && Elements(popped) == g.Dark()
  {
    SeenAll(g);
    StripInImage(g);
    forall p | p in g.Dark() ensures p < end { OutsideStrip(g, p); }
    ExactSkip(g, o, end, g.height * g.width, roots, blobs);
  }

  lemma ScanSkip(g: Strip, o: Options, n: int, roots: seq<int>, blobs: seq<Blob>, popped: seq<int>)
    requires g.Valid() && 0 <= n && ScanState(g, o, n, roots, blobs, popped)
    requires n in g.Dark() ==> n in Seen(g, n)
    ensures ScanState(g, o, n + 1, roots, blobs, popped) && Seen(g, n + 1) == Seen(g, n)
  {
    SeenNext(g, n);
    if n in g.Dark() { UnseenIsRoot(g, n); }
    ExactSkip(g, o, n, n + 1, roots, blobs);
  }

  lemma AppendNew(a: seq<int>, b: seq<int>)
    requires NoDuplicates(a) && NoDuplicates(b) && Elements(a) !! Elements(b)
    ensures NoDuplicates(a + b) && Elements(a + b) == Elements(a) + Elements(b)
  {
    forall i, j | 0 <= i < j < |a + b| ensures (a + b)[i] != (a + b)[j] {
      if i < |a| <= j {
        assert a[i] in Elements(a) && b[j - |a|] in Elements(b);
      }
    }
  }

  lemma MeanIs(x: int, n: nat)
    requires 0 < n
    ensures IsMean(x as real / n as real, x, n)
  {
  }

  lemma BlobParts(g: Strip, c: set<int>, box: Box, count: nat, sx: int, sy: int)
    requires g.Valid() && 0 < count && count == |c| && g.IsBox(box, c)
    requires sx == g.Sum(X, c, g.height * g.width) && sy == g.Sum(Y, c, g.height * g.width)
    requires IsMean(sx as real / count as real, sx, count) && IsMean(sy as real / count as real, sy, count)
    ensures Describes(g, MakeBlob(box, count, sx, sy), c)
  {
    hide Strip.Sum, Strip.IsBox, IsMean;
    var b := MakeBlob(box, count, sx, sy);
    assert Box(b.x, b.y, b.x + b.width - 1, b.y + b.height - 1) == box;
  }

  lemma BlobDescribes(g: Strip, c: set<int>, box: Box, sx: int, sy: int)
    requires g.Valid() && 0 < |c| && g.IsBox(box, c)
    requires sx == g.Sum(X, c, g.height * g.width) && sy == g.Sum(Y, c, g.height * g.width)
    ensures Describes(g, MakeBlob(box, |c|, sx, sy), c)
  {
    hide *;
    MeanIs(sx, |c|);
    MeanIs(sy, |c|);
    BlobParts(g, c, box, |c|, sx, sy);
  }

  lemma KeptIff(g: Strip, o: Options, c: set<int>, box: Box)
    requires g.Valid() && g.IsBox(box, c)
    ensures Kept(g, o, |c|, box) <==> IsKept(g, o, c)
  {
    forall b | g.IsBox(b, c) ensures b == box { BoxUnique(g, b, box, c); }
    hide Strip.IsBox;
    KeptInPercent(g, o, |c|, box);
  }

  lemma KeptInPercent(g: Strip, o: Options, count: int, b: Box)
    ensures Kept(g, o, count, b) <==>
      (o.minCount <= count as real <= o.maxCount
       && (100 * (b.maxx - b.minx + 1) <= 92 * g.width || 100 * (b.maxy - b.miny + 1) >= 22 * g.height))
  {
  }

  /** A first pixel's component, once filled, is reported exactly when it is kept. */
  lemma ReportComponent(g: Strip, o: Options, n: int, roots: seq<int>, blobs: seq<Blob>, box: Box, sx: int, sy: int)
    requires g.Valid() && 0 <= n && Exact(g, o, n, roots, blobs) && g.IsRoot(n)
    requires g.IsBox(box, g.Component(n)) && sx == g.Sum(X, g.Component(n), g.height * g.width)
    requires sy == g.Sum(Y, g.Component(n), g.height * g.width)
    ensures 0 < |g.Component(n)|
    ensures if Kept(g, o, |g.Component(n)|, box)
      then Exact(g, o, n + 1, roots + [n], blobs + [MakeBlob(box, |g.Component(n)|, sx, sy)])
      else Exact(g, o, n + 1, roots, blobs)
  {
    ConnectedRefl(g, n);
    assert n in g.Component(n);
    hide Strip.Sum, Strip.IsBox, Strip.Component, Describes, Kept, IsKept, MakeBlob;
    var c := g.Component(n);
    KeptIff(g, o, c, box);
    BlobDescribes(g, c, box, sx, sy);
    if Kept(g, o, |c|, box) {
      ExactAdd(g, o, n, roots, blobs, MakeBlob(box, |c|, sx, sy));
    } else {
      ExactSkip(g, o, n, n + 1, roots, blobs);
    }
  }

  lemma ScanBlob(g: Strip, o: Options, n: int, roots: seq<int>, blobs: seq<Blob>, popped: seq<int>,
                 more: seq<int>, box: Box, sx: int, sy: int)
    requires g.Valid() && 0 <= n && ScanState(g, o, n, roots, blobs, popped)
    requires n in g.Dark() && n !in Seen(g, n)
    requires NoDuplicates(more) && Elements(more) == g.Component(n) && Seen(g, n) !! g.Component(n)
    requires g.IsBox(box, g.Component(n)) && sx == g.Sum(X, g.Component(n), g.height * g.width)
    requires sy == g.Sum(Y, g.Component(n), g.height * g.width)
    ensures 0 < |g.Component(n)|
    ensures if Kept(g, o, |g.Component(n)|, box)
      then ScanState(g, o, n + 1, roots + [n], blobs + [MakeBlob(box, |g.Component(n)|, sx, sy)], popped + more)
      else ScanState(g, o, n + 1, roots, blobs, popped + more)
    ensures Seen(g, n + 1) == Seen(g, n) + g.Component(n)
  {
    SeenNext(g, n);
    UnseenIsRoot(g, n);
    AppendNew(popped, more);
    ReportComponent(g, o, n, roots, blobs, box, sx, sy);
  }

  lemma RowPixel(g: Strip, x: int, y: int)
    requires g.Valid() && 0 <= x < g.width && g.y0 <= y < g.y1
    ensures var p := y * g.width + x;
      0 <= p < g.height * g.width && (p in g.Dark() <==> g.dark(p))
  {
    DivMod(g.width, x, y);
    InImage(g, y * g.width + x);
  }

  /** The body of the scan at one pixel: skip it, or fill and perhaps report its component. */
  method ScanPixel(g: Strip, o: Options, visited: array<bool>, start: int, blobs: seq<Blob>,
                   ghost roots: seq<int>, ghost popped: seq<int>)
    returns (reported: seq<Blob>, ghost firsts: seq<int>, ghost order: seq<int>)
    requires g.Valid() && visited.Length == g.height * g.width && 0 <= start < visited.Length
    requires start in g.Dark() <==> g.dark(start)
    requires ScanState(g, o, start, roots, blobs, popped) && Marks(visited, Seen(g, start))
    modifies visited
    ensures ScanState(g, o, start + 1, firsts, reported, order) && Marks(visited, Seen(g, start + 1))
  {
    if visited[start] || !g.dark(start) {
      ScanSkip(g, o, start, roots, blobs, popped);
      return blobs, roots, popped;
    }
    SeenClosed(g, start);
    var count, sx, sy, box, more := Fill(g, visited, start, Seen(g, start));
    ScanBlob(g, o, start, roots, blobs, popped, more, box, sx, sy);
    reported, firsts, order := blobs, roots, popped + more;
    if Kept(g, o, count, box) {
      reported, firsts := blobs + [MakeBlob(box, count, sx, sy)], roots + [start];
    }
  }

  method ScanRow(g: Strip, o: Options, visited: array<bool>, y: int, blobs: seq<Blob>,
                 ghost roots: seq<int>, ghost popped: seq<int>)
    returns (reported: seq<Blob>, ghost firsts: seq<int>, ghost order: seq<int>)
    requires g.Valid() && visited.Length == g.height * g.width && g.y0 <= y < g.y1
    requires ScanState(g, o, y * g.width, roots, blobs, popped) && Marks(visited, Seen(g, y * g.width))
    modifies visited
    ensures ScanState(g, o, (y + 1) * g.width, firsts, reported, order) && Marks(visited, Seen(g, (y + 1) * g.width))
  {
    reported, firsts, order := blobs, roots, popped;
    for x := 0 to g.width
      invariant ScanState(g, o, y * g.width + x, firsts, reported, order)
      invariant Marks(visited, Seen(g, y * g.width + x))
    {
      RowPixel(g, x, y);
      reported, firsts, order := ScanPixel(g, o, visited, y * g.width + x, reported, firsts, order);
    }
    assert y * g.width + g.width == (y + 1) * g.width;
  }

  method ScanStrip(g: Strip, o: Options)
    returns (blobs: seq<Blob>, ghost roots: seq<int>, ghost popped: seq<int>)
    requires g.Valid()
    ensures Exact(g, o, g.height * g.width, roots, blobs)
    ensures NoDuplicates(popped) && Elements(popped) == g.Dark()
  {
    StripInImage(g);
    var visited := new bool[g.height * g.width](_ => false);
    blobs, roots, popped := [], [], [];
    ScanStart(g, o);
    for y := g.y0 to g.y1
      invariant ScanState(g, o, y * g.width, roots, blobs, popped)
      invariant Marks(visited, Seen(g, y * g.width))
    {
      blobs, roots, popped := ScanRow(g, o, visited, y, blobs, roots, popped);
    }
    ScanEnd(g, o, g.y1 * g.width, roots, blobs, popped);
  }

  /** Scan the strip in raster order and report each kept component once.
      `popped` is the order in which pixels left the stack, over all components. */
  method ExtractDarkBlobs(image: Image, o: Options)
    returns (blobs: seq<Blob>, ghost roots: seq<int>, ghost popped: seq<int>)
    ensures image.width < 8 || image.height < 8 || image.dataLength < image.width * image.height * 4 ==> blobs == []
    ensures !(image.width < 8 || image.height < 8 || image.dataLength < image.width * image.height * 4) ==>
      var g := StripOf(image, o);
      && Exact(g, o, g.height * g.width, roots, blobs)
      && NoDuplicates(popped) && Elements(popped) == g.Dark()
  {
    if image.width < 8 || image.height < 8 || image.dataLength < image.width * image.height * 4 { return [], [], []; }
    blobs, roots, popped := ScanStrip(StripOf(image, o), o);
  }

  // ---- what the report says ----

  /** Every dark pixel of the strip belongs to the component of exactly one first pixel. */
  lemma {:induction false} UniqueRoot(g: Strip, p: int) returns (r: int)
    requires g.Valid() && p in g.Dark()
    ensures g.IsRoot(r) && p in g.Component(r)
    ensures forall t :: g.IsRoot(t) && p in g.Component(t) ==> t == r
    decreases p
  {
    ConnectedRefl(g, p);
    if g.IsRoot(p) {
      r := p;
    } else {
      var q :| q in g.Component(p) && q < p;
      ComponentEq(g, p, q);
      r := UniqueRoot(g, q);
      ComponentEq(g, r, q);
    }
    forall t | g.IsRoot(t) && p in g.Component(t) ensures t == r {
      ComponentEq(g, t, p);
      ComponentEq(g, r, p);
    }
  }

  lemma DescribesUnique(g: Strip, a: Blob, b: Blob, c: set<int>)
    requires g.Valid() && c != {} && Describes(g, a, c) && Describes(g, b, c)
    ensures a == b
  {
    assert 0 < |c|;
    hide Strip.Sum, Strip.IsBox, IsMean;
    BoxUnique(g, Box(a.x, a.y, a.x + a.width - 1, a.y + a.height - 1), Box(b.x, b.y, b.x + b.width - 1, b.y + b.height - 1), c);
    MeanIsUnique(a.cx, b.cx, g.Sum(X, c, g.height * g.width), |c|);
    MeanIsUnique(a.cy, b.cy, g.Sum(Y, c, g.height * g.width), |c|);
  }

  lemma MeanIsUnique(x: real, y: real, sum: int, n: nat)
    requires 0 < n && IsMean(x, sum, n) && IsMean(y, sum, n)
    ensures x == y
  {
  }

  /** The report is determined: two exact reports of the same strip are equal. */
  lemma {:induction false} ExactUnique(g: Strip, o: Options, n: int,
      roots: seq<int>, blobs: seq<Blob>, roots': seq<int>, blobs': seq<Blob>)
    requires g.Valid() && Exact(g, o, n, roots, blobs) && Exact(g, o, n, roots', blobs')
    ensures roots == roots' && blobs == blobs'
  {
    SameMembersSameList(roots, roots');
    hide Strip.Sum, Strip.IsBox, Describes, IsKept;
    forall k | 0 <= k < |roots| ensures blobs[k] == blobs'[k] {
      assert IsReportOf(g, o, roots[k], blobs[k]) && IsReportOf(g, o, roots'[k], blobs'[k]);
      DescribesUnique(g, blobs[k], blobs'[k], g.Component(roots[k]));
    }
  }
}
