/** The text recognizer's geometric core: letter candidates are picked from
    the image's segments by size, internal letter parts are dropped, the
    candidates are merged into connected groups, and the groups are chained
    into words and sentences by their bounding boxes. The OCR engines the
    recognizer then runs are not part of this model. */
module TextRecognition {
  import opened Wrappers

  // ---------------------------------------------------------------------
  // Data
  // ---------------------------------------------------------------------

  /** A bounding box `(x1, y1, x2, y2)`: left, top, right, bottom. */
  datatype Box = Box(x1: int, y1: int, x2: int, y2: int) {
    /** The coordinate at tuple position `i`. */
    function At(i: nat): int
      requires i < 4
    {
      if i == 0 then x1 else if i == 1 then y1 else if i == 2 then x2 else y2
    }
  }

  /** What the OCR step decided a region is. */
  datatype Genre = Text(text: string, horizontal: bool) | Unclassified

  /** A segment of the image as the segmentizer delivers it: its index, its
      size, its bounding box, the number of its pixels, the indices of its
      neighbouring segments, and its genre. */
  datatype Segment = Segment(index: int, width: int, height: int, bounds: Box,
                             area: nat, neighbours: seq<int>, genre: Genre)

  /** A group of segments with its identifier. */
  datatype SegmentGroup = SegmentGroup(id: nat, segments: set<Segment>)

  /** A text-region candidate: a group of merged segments, or a group of
      smaller regions chained together (a word of letters, a sentence of
      words). */
  datatype Region = Merged(group: SegmentGroup) | Grouped(parts: set<Region>)

  /** The recognizer's parameters: the largest letter box, the greatest gap
      between letters of a word and between words of a sentence, the least
      pixel area of a word, and the greatest width of a vertical line; by
      default 40, 30, 6, 12, 20 and 30. */
  datatype Config = Config(maxWidth: int, maxHeight: int, letterDelta: int, wordDelta: int,
                           minWordArea: int, maxVerticalHeight: int)

  /** What the recognizer reads of a region but computes elsewhere: its
      bounding box, its pixel count and its width. */
  datatype Measures = Measures(bounds: Region -> Box, area: Region -> nat, width: Region -> int)

  /** The caller's collection of segments, which letter clearing shrinks. */
  class SegmentStore {
    var segments: set<Segment>

    constructor (segments: set<Segment>)
      ensures this.segments == segments
    {
      this.segments := segments;
    }
  }

  // ---------------------------------------------------------------------
  // Dictionaries keyed by a property of their values
  // ---------------------------------------------------------------------

  /** A dictionary built from the items of a set: every item's key is
      present, and each key maps to an item with that key. Which item wins
      when keys repeat depends on the set's iteration order. */
  method KeyedBy<K, T>(items: set<T>, key: T -> K) returns (m: map<K, T>)
    ensures forall t :: t in items ==> key(t) in m
    ensures forall k :: k in m ==> m[k] in items && key(m[k]) == k
  {
    m := map[];
    var rest := items;
    while rest != {}
      invariant rest <= items
      invariant forall t :: t in items ==> t in rest || key(t) in m
      invariant forall k :: k in m ==> m[k] in items && key(m[k]) == k
      decreases |rest|
    {
      var t :| t in rest;
      rest := rest - {t};
      m := m[key(t) := t];
    }
  }

  /** Every item's key is present in `d`, and each key maps to the last
      item of the list with that key. */
  ghost predicate LastWins<K, T>(d: map<K, T>, items: seq<T>, key: T -> K)
  {
    (forall i :: 0 <= i < |items| ==> key(items[i]) in d) &&
    (forall k :: k in d ==>
       exists i :: 0 <= i < |items| && d[k] == items[i] && key(items[i]) == k &&
         forall j :: i < j < |items| ==> key(items[j]) != k)
  }

  /** A dictionary built from a list: every item's key is present, and each
      key maps to the last item of the list with that key. */
  method KeyedByList<K, T>(items: seq<T>, key: T -> K) returns (m: map<K, T>)
    ensures LastWins(m, items, key)
  {
    m := map[];
    ghost var pos: map<K, nat> := map[];
    for n := 0 to |items|
      invariant forall i :: 0 <= i < n ==> key(items[i]) in m
      invariant forall k :: k in m ==> k in pos
      invariant forall k :: k in pos ==>
                  pos[k] < n && k in m && m[k] == items[pos[k]] && key(items[pos[k]]) == k &&
                  forall j :: pos[k] < j < n ==> key(items[j]) != k
    {
      m := m[key(items[n]) := items[n]];
      pos := pos[key(items[n]) := n];
    }
    forall k | k in m
      ensures exists i :: 0 <= i < |items| && m[k] == items[i] && key(items[i]) == k &&
                forall j :: i < j < |items| ==> key(items[j]) != k
    {
      assert pos[k] < |items|;
    }
  }

  // ---------------------------------------------------------------------
  // Size filter
  // ---------------------------------------------------------------------

  /** The segment fits in the largest letter box. */
  predicate Fits(s: Segment, maxWidth: int, maxHeight: int)
  {
    s.width <= maxWidth && s.height <= maxHeight
  }

  /** `box_filter`: the segments that fit in the largest letter box. */
  method BoxFilter(segments: set<Segment>, maxWidth: int, maxHeight: int)
    returns (candidates: set<Segment>)
    ensures candidates <= segments
    ensures forall s :: s in candidates <==> s in segments && Fits(s, maxWidth, maxHeight)
  {
    candidates := {};
    var rest := segments;
    while rest != {}
      invariant rest <= segments
      invariant forall s :: s in candidates <==> s in segments - rest && Fits(s, maxWidth, maxHeight)
      decreases |rest|
    {
      var s :| s in rest;
      rest := rest - {s};
      if s.width > maxWidth || s.height > maxHeight {
        continue;
      }
      candidates := candidates + {s};
    }
  }

  // ---------------------------------------------------------------------
  // Clearing internal letter parts
  // ---------------------------------------------------------------------

  /** The indices of the segments. */
  function Indices(segments: set<Segment>): (r: set<int>)
    ensures forall s :: s in segments ==> s.index in r
    ensures forall i :: i in r ==> exists s :: s in segments && s.index == i
  {
    set s | s in segments :: s.index
  }

  /** Some neighbour of `s` lies outside the index set. */
  predicate HasOutsideNeighbour(s: Segment, indices: set<int>)
  {
    exists j :: 0 <= j < |s.neighbours| && s.neighbours[j] !in indices
  }

  /** The inner loop of `clear_letters`: whether some neighbour of `s` is
      outside `indices`. */
  method FindOutsideNeighbour(s: Segment, indices: set<int>) returns (found: bool)
    ensures found <==> HasOutsideNeighbour(s, indices)
  {
    for k := 0 to |s.neighbours|
      invariant forall j :: 0 <= j < k ==> s.neighbours[j] in indices
    {
      if s.neighbours[k] !in indices {
        return true;
      }
    }
    return false;
  }

  /** `clear_letters`: a candidate stays when one of its neighbours is not
      a candidate; the others are internal parts of a letter and are also
      deleted from the caller's collection; `removed` counts them. */
  method ClearLetters(store: SegmentStore, segments: set<Segment>)
    returns (candidates: set<Segment>, removed: nat)
    requires segments <= store.segments
    modifies store
    ensures forall s :: s in candidates <==> s in segments && HasOutsideNeighbour(s, Indices(segments))
    ensures store.segments == old(store.segments) - (segments - candidates)
    ensures removed == |segments - candidates|
  {
    candidates := {};
    var indices := Indices(segments);
    removed := 0;
    var rest := segments;
    ghost var dropped: set<Segment> := {};
    while rest != {}
      invariant forall x :: x in segments <==> x in candidates || x in dropped || x in rest
      invariant forall x :: x in rest ==> x !in candidates && x !in dropped
      invariant forall x :: x in candidates ==> x !in dropped && HasOutsideNeighbour(x, indices)
      invariant forall x :: x in dropped ==> !HasOutsideNeighbour(x, indices)
      invariant forall x :: x in store.segments <==> x in old(store.segments) && x !in dropped
      invariant removed == |dropped|
      decreases |rest|
    {
      var s :| s in rest;
      rest := rest - {s};
      var found := FindOutsideNeighbour(s, indices);
      if found {
        candidates := candidates + {s};
      } else {
        removed := removed + 1;
        store.segments := store.segments - {s};
        dropped := dropped + {s};
      }
    }
    assert segments - candidates == dropped;
  }

  // ---------------------------------------------------------------------
  // Merging candidates into connected groups
  // ---------------------------------------------------------------------

  /** No two segments share an index. */
  predicate UniqueIndices(segments: set<Segment>)
  {
    forall a, b :: a in segments && b in segments && a.index == b.index ==> a == b
  }

  /** Among the segments, being a neighbour is symmetric. */
  predicate Symmetric(segments: set<Segment>)
  {
    forall a, b :: a in segments && b in segments && b.index in a.neighbours ==> a.index in b.neighbours
  }

  /** Indices are unique and neighbourhood is symmetric: what the
      segmentizer's adjacency graph provides. */
  predicate WellLinked(segments: set<Segment>)
  {
    UniqueIndices(segments) && Symmetric(segments)
  }

  /** Every segment that `p` names as a neighbour is in `group`. */
  predicate ClosedAt(p: Segment, segments: set<Segment>, group: set<Segment>)
  {
    forall u :: u in segments && u.index in p.neighbours ==> u in group
  }

  /** No segment of `done` names a segment outside `done` as a neighbour. */
  predicate ClosedSet(segments: set<Segment>, done: set<Segment>)
  {
    forall t, u :: t in done && u in segments && u.index in t.neighbours ==> u in done
  }

  /** `segMap` maps the index of each segment to a segment with that index. */
  predicate IndexMap(segMap: map<int, Segment>, segments: set<Segment>)
  {
    (forall s :: s in segments ==> s.index in segMap) &&
    (forall i :: i in segMap ==> segMap[i] in segments && segMap[i].index == i)
  }

  /** Each segment of `path` after the first is a segment of `segments`
      that the previous one names as a neighbour. */
  ghost predicate Walk(segments: set<Segment>, path: seq<Segment>)
    decreases |path|
  {
    |path| <= 1 ||
    (path[1] in segments && path[1].index in path[0].neighbours && Walk(segments, path[1..]))
  }

  /** `b` is reached from `a` by following neighbour indices through
      `segments`. */
  ghost predicate Reachable(segments: set<Segment>, a: Segment, b: Segment)
  {
    exists path :: Walk(segments, path) && |path| >= 1 && path[0] == a && path[|path| - 1] == b
  }

  /** Every segment of `group` is reached from `seed`. */
  ghost predicate ReachableFrom(segments: set<Segment>, seed: Segment, group: set<Segment>)
  {
    forall x :: x in group ==> Reachable(segments, seed, x)
  }

  /** Some member of `group` reaches every member: the group is connected. */
  ghost predicate Connected(segments: set<Segment>, group: set<Segment>)
  {
    exists seed :: seed in group && ReachableFrom(segments, seed, group)
  }

  /** A segment reaches itself. */
  lemma ReachSelf(segments: set<Segment>, a: Segment)
    ensures Reachable(segments, a, a)
  {
    var path := [a];
    assert Walk(segments, path) && path[0] == a && path[|path| - 1] == a;
  }

  /** A walk ending where another starts joins it. */
  lemma {:induction false} WalkAppend(segments: set<Segment>, p: seq<Segment>, q: seq<Segment>)
    requires Walk(segments, p) && Walk(segments, q) && |p| >= 1 && |q| >= 1 && p[|p| - 1] == q[0]
    ensures Walk(segments, p + q[1..])
    decreases |p|
  {
    if |p| == 1 {
      assert p + q[1..] == q;
    } else {
      WalkAppend(segments, p[1..], q);
      assert (p + q[1..])[1..] == p[1..] + q[1..];
    }
  }

  /** Walks compose. */
  lemma ReachJoin(segments: set<Segment>, a: Segment, b: Segment, c: Segment)
    requires Reachable(segments, a, b) && Reachable(segments, b, c)
    ensures Reachable(segments, a, c)
  {
    var p: seq<Segment> :| Walk(segments, p) && |p| >= 1 && p[0] == a && p[|p| - 1] == b;
    var q: seq<Segment> :| Walk(segments, q) && |q| >= 1 && q[0] == b && q[|q| - 1] == c;
    WalkAppend(segments, p, q);
    var path := p + q[1..];
    assert path[0] == a && path[|path| - 1] == c;
  }

  /** A walk to `s` extends to any neighbour of `s`. */
  lemma ReachStep(segments: set<Segment>, a: Segment, s: Segment, u: Segment)
    requires Reachable(segments, a, s) && u in segments && u.index in s.neighbours
    ensures Reachable(segments, a, u)
  {
    var step := [s, u];
    assert step[1..] == [u];
    assert Walk(segments, step) && step[0] == s && step[|step| - 1] == u;
    ReachJoin(segments, a, s, u);
  }

  /** Under symmetric neighbourhood a walk can be followed backwards. */
  lemma {:induction false} WalkBack(segments: set<Segment>, p: seq<Segment>)
    requires Symmetric(segments) && Walk(segments, p) && |p| >= 1 && p[0] in segments
    ensures Reachable(segments, p[|p| - 1], p[0])
    decreases |p|
  {
    if |p| == 1 {
      ReachSelf(segments, p[0]);
    } else {
      WalkBack(segments, p[1..]);
      ReachStep(segments, p[|p| - 1], p[1], p[0]);
    }
  }

  /** Under symmetric neighbourhood reachability is symmetric. */
  lemma ReachBack(segments: set<Segment>, a: Segment, b: Segment)
    requires Symmetric(segments) && a in segments && Reachable(segments, a, b)
    ensures Reachable(segments, b, a)
  {
    var p: seq<Segment> :| Walk(segments, p) && |p| >= 1 && p[0] == a && p[|p| - 1] == b;
    WalkBack(segments, p);
  }

  /** A walk that starts in a group closed under neighbourhood stays in it. */
  lemma {:induction false} WalkStays(segments: set<Segment>, group: set<Segment>, path: seq<Segment>)
    requires Walk(segments, path) && |path| >= 1 && path[0] in group
    requires forall p :: p in group ==> ClosedAt(p, segments, group)
    ensures path[|path| - 1] in group
    decreases |path|
  {
    if |path| > 1 {
      assert ClosedAt(path[0], segments, group);
      WalkStays(segments, group, path[1..]);
    }
  }

  /** A segment of `done` never neighbours a segment outside it. */
  lemma OutsideDone(segments: set<Segment>, done: set<Segment>, s: Segment, u: Segment)
    requires Symmetric(segments) && ClosedSet(segments, done)
    requires s in segments && u in segments && u.index in s.neighbours && s !in done
    ensures u !in done
  {
  }

  /** Every candidate is still in the pool `tmp`, in a finished group
      (`done`), or in the group being grown; the pool is apart from both. */
  ghost predicate Pool(segments: set<Segment>, tmp: set<Segment>, done: set<Segment>, group: set<Segment>)
  {
    (forall x :: x in segments <==> x in tmp || x in done || x in group) &&
    (forall x :: x in tmp ==> x !in done && x !in group)
  }

  /** Every index taken out of `indices` belongs to a segment already
      placed in a group. */
  ghost predicate Freed(segMap: map<int, Segment>, indices: set<int>, done: set<Segment>, group: set<Segment>)
  {
    forall n :: n in segMap && n !in indices ==> segMap[n] in done || segMap[n] in group
  }

  /** The group being grown is apart from the finished groups, and each of
      its members is on the stack, is `s`, or has all its neighbours in the
      group. */
  ghost predicate Growing(segments: set<Segment>, done: set<Segment>, s: Segment,
                    stack: seq<Segment>, group: set<Segment>)
  {
    (forall x :: x in group ==> x !in done) &&
    (forall p :: p in group ==> p == s || p in stack || ClosedAt(p, segments, group))
  }

  /** A segment pushed on the stack may join the group being grown. */
  lemma GrowingPush(segments: set<Segment>, done: set<Segment>, s: Segment,
                    stack: seq<Segment>, group: set<Segment>, u: Segment)
    requires Growing(segments, done, s, stack, group) && u !in done
    ensures Growing(segments, done, s, stack + [u], group + {u})
  {
    forall p | p in group + {u}
      ensures p == s || p in stack + [u] || ClosedAt(p, segments, group + {u})
    {
      if p == u {
        assert (stack + [u])[|stack|] == u;
      } else if p != s && p !in stack {
        assert ClosedAt(p, segments, group);
      } else if p in stack {
        var i :| 0 <= i < |stack| && stack[i] == p;
        assert (stack + [u])[i] == p;
      }
    }
  }

  /** One turn of the loop over the neighbours of `s`: the neighbour at
      position `k`, when its index is still free, joins the group and the
      stack and leaves the pool. */
  method Absorb(segments: set<Segment>, segMap: map<int, Segment>, s: Segment, k: nat,
                tmp: set<Segment>, indices: set<int>, stack: seq<Segment>,
                group: set<Segment>, ghost done: set<Segment>, ghost seed: Segment)
    returns (tmp': set<Segment>, indices': set<int>, stack': seq<Segment>, group': set<Segment>)
    requires k < |s.neighbours|
    requires ReachableFrom(segments, seed, group)
    requires IndexMap(segMap, segments) && indices <= segMap.Keys
    requires s in group && group <= segments
    requires Pool(segments, tmp, done, group) && Freed(segMap, indices, done, group)
    requires forall x :: x in stack ==> x in group
    requires WellLinked(segments) ==>
               ClosedSet(segments, done) && Growing(segments, done, s, stack, group) &&
               forall u :: u in segments && u.index in s.neighbours[..k] ==> u in group
    ensures indices' <= indices && |indices'| <= |indices|
    ensures |indices'| + |stack'| == |indices| + |stack|
    ensures group <= group' <= segments
    ensures Pool(segments, tmp', done, group') && Freed(segMap, indices', done, group')
    ensures tmp' <= tmp && |tmp'| <= |tmp|
    ensures forall x :: x in stack' ==> x in group'
    ensures ReachableFrom(segments, seed, group')
    ensures WellLinked(segments) ==>
              Growing(segments, done, s, stack', group') &&
              forall u :: u in segments && u.index in s.neighbours[..k + 1] ==> u in group'
  {
    tmp', indices', stack', group' := tmp, indices, stack, group;
    var n := s.neighbours[k];
    if n in indices {
      var u := segMap[n];
      ReachStep(segments, seed, s, u);
      if WellLinked(segments) {
        OutsideDone(segments, done, s, u);
        GrowingPush(segments, done, s, stack, group, u);
      }
      tmp' := tmp - {u};
      indices' := indices - {n};
      stack' := stack + [u];
      group' := group + {u};
    }
    if WellLinked(segments) {
      forall u | u in segments && u.index in s.neighbours[..k + 1]
        ensures u in group'
      {
        if u.index != n {
          assert u.index in s.neighbours[..k];
        } else {
          OutsideDone(segments, done, s, u);
          assert segMap[n] == u;
        }
      }
    }
  }

  /** The loop over the neighbours of `s`, just taken off the stack: every
      neighbour whose index is still free joins the group and the stack and
      leaves the pool of seeds. */
  method VisitNeighbours(segments: set<Segment>, segMap: map<int, Segment>, s: Segment,
                         tmp: set<Segment>, indices: set<int>, stack: seq<Segment>,
                         group: set<Segment>, ghost done: set<Segment>, ghost seed: Segment)
    returns (tmp': set<Segment>, indices': set<int>, stack': seq<Segment>, group': set<Segment>)
    requires ReachableFrom(segments, seed, group)
    requires IndexMap(segMap, segments) && indices <= segMap.Keys
    requires s in group && group <= segments
    requires Pool(segments, tmp, done, group) && Freed(segMap, indices, done, group)
    requires forall x :: x in stack ==> x in group
    requires WellLinked(segments) ==> ClosedSet(segments, done) && Growing(segments, done, s, stack, group)
    ensures indices' <= indices && |indices'| <= |indices|
    ensures |indices'| + |stack'| == |indices| + |stack|
    ensures group <= group' <= segments
    ensures Pool(segments, tmp', done, group') && Freed(segMap, indices', done, group')
    ensures tmp' <= tmp && |tmp'| <= |tmp|
    ensures forall x :: x in stack' ==> x in group'
    ensures ReachableFrom(segments, seed, group')
    ensures WellLinked(segments) ==>
              (forall x :: x in group' ==> x !in done) &&
              forall p :: p in group' ==> p in stack' || ClosedAt(p, segments, group')
  {
    tmp', indices', stack', group' := tmp, indices, stack, group;
    for k := 0 to |s.neighbours|
      invariant indices' <= indices && |indices'| <= |indices|
      invariant |indices'| + |stack'| == |indices| + |stack|
      invariant group <= group' <= segments
      invariant Pool(segments, tmp', done, group') && Freed(segMap, indices', done, group')
      invariant tmp' <= tmp && |tmp'| <= |tmp|
      invariant forall x :: x in stack' ==> x in group'
      invariant ReachableFrom(segments, seed, group')
      invariant WellLinked(segments) ==>
                  Growing(segments, done, s, stack', group') &&
                  forall u :: u in segments && u.index in s.neighbours[..k] ==> u in group'
    {
      tmp', indices', stack', group' := Absorb(segments, segMap, s, k, tmp', indices', stack', group', done, seed);
    }
    assert s.neighbours[..|s.neighbours|] == s.neighbours;
  }

  /** The stack loop of `merge_segments`, started from `seed` just popped
      from the pool `tmp`: the group collects segments reached from the
      seed through indices still free, so each is reachable from it. */
  method GrowGroup(segments: set<Segment>, segMap: map<int, Segment>, seed: Segment,
                   tmp: set<Segment>, indices: set<int>, ghost done: set<Segment>)
    returns (tmp': set<Segment>, indices': set<int>, group: set<Segment>)
    requires IndexMap(segMap, segments) && indices <= segMap.Keys
    requires seed in segments && seed !in done
    requires Pool(segments, tmp, done, {seed}) && Freed(segMap, indices, done, {})
    requires WellLinked(segments) ==> ClosedSet(segments, done)
    ensures seed in group && group <= segments
    ensures indices' <= indices
    ensures Pool(segments, tmp', done, group) && Freed(segMap, indices', done, group)
    ensures tmp' <= tmp && |tmp'| <= |tmp|
    ensures ReachableFrom(segments, seed, group)
    ensures WellLinked(segments) ==>
              (forall x :: x in group ==> x !in done) &&
              forall p :: p in group ==> ClosedAt(p, segments, group)
  {
    var stack := [seed];
    group := {seed};
    tmp', indices' := tmp, indices;
    ReachSelf(segments, seed);
    while stack != []
      invariant indices' <= indices
      invariant seed in group && group <= segments
      invariant Pool(segments, tmp', done, group) && Freed(segMap, indices', done, group)
      invariant tmp' <= tmp && |tmp'| <= |tmp|
      invariant forall x :: x in stack ==> x in group
      invariant ReachableFrom(segments, seed, group)
      invariant WellLinked(segments) ==>
                  (forall x :: x in group ==> x !in done) &&
                  forall p :: p in group ==> p in stack || ClosedAt(p, segments, group)
      decreases |indices'|, |stack|
    {
      var s := stack[|stack| - 1];
      PopLast(stack);
      stack := stack[..|stack| - 1];
      tmp', indices', stack, group := VisitNeighbours(segments, segMap, s, tmp', indices', stack, group, done, seed);
    }
  }

  /** Every entry of a stack is its top or an entry of the rest. */
  lemma PopLast(stack: seq<Segment>)
    requires stack != []
    ensures forall x :: x in stack ==> x == stack[|stack| - 1] || x in stack[..|stack| - 1]
    ensures forall x :: x in stack[..|stack| - 1] ==> x in stack
  {
    assert stack == stack[..|stack| - 1] + [stack[|stack| - 1]];
  }

  /** The union of the groups' segments. */
  ghost function Members(groups: seq<SegmentGroup>): (r: set<Segment>)
    ensures forall x :: x in r <==> exists i :: 0 <= i < |groups| && x in groups[i].segments
  {
    if groups == [] then {}
    else
      var r := Members(groups[..|groups| - 1]) + groups[|groups| - 1].segments;
      assert forall x :: x in r ==> exists i :: 0 <= i < |groups| && x in groups[i].segments;
      r
  }

  /** Group `i` has identifier `i` and is not empty. */
  predicate Numbered(groups: seq<SegmentGroup>)
  {
    forall i :: 0 <= i < |groups| ==> groups[i].id == i && groups[i].segments != {}
  }

  /** No segment is in two groups. */
  predicate Disjoint(groups: seq<SegmentGroup>)
  {
    forall i, j :: 0 <= i < j < |groups| ==> groups[i].segments !! groups[j].segments
  }

  /** No segment of a group neighbours a segment outside that group. */
  predicate Components(segments: set<Segment>, groups: seq<SegmentGroup>)
  {
    forall i, p :: 0 <= i < |groups| && p in groups[i].segments ==>
      ClosedAt(p, segments, groups[i].segments)
  }

  /** Appending a fresh group keeps the numbering and adds its segments
      to the members. */
  lemma AppendGroup(groups: seq<SegmentGroup>, g: SegmentGroup)
    requires Numbered(groups) && g.id == |groups| && g.segments != {}
    ensures Numbered(groups + [g])
    ensures Members(groups + [g]) == Members(groups) + g.segments
  {
    assert (groups + [g])[..|groups|] == groups;
  }

  /** Appending a group apart from all members keeps the groups disjoint. */
  lemma AppendDisjoint(groups: seq<SegmentGroup>, g: SegmentGroup)
    requires Disjoint(groups) && g.segments !! Members(groups)
    ensures Disjoint(groups + [g])
  {
    forall i, j | 0 <= i < j < |groups| + 1
      ensures (groups + [g])[i].segments !! (groups + [g])[j].segments
    {
      if j == |groups| {
        forall x | x in groups[i].segments
          ensures x !in g.segments
        {
          assert x in Members(groups);
        }
      }
    }
  }

  /** Every group is connected. */
  ghost predicate AllConnected(segments: set<Segment>, groups: seq<SegmentGroup>)
  {
    forall i :: 0 <= i < |groups| ==> Connected(segments, groups[i].segments)
  }

  /** Appending a connected group keeps every group connected. */
  lemma AppendConnected(segments: set<Segment>, groups: seq<SegmentGroup>, g: SegmentGroup)
    requires AllConnected(segments, groups) && Connected(segments, g.segments)
    ensures AllConnected(segments, groups + [g])
  {
    forall i | 0 <= i < |groups| + 1
      ensures Connected(segments, (groups + [g])[i].segments)
    {
      if i < |groups| {
        assert (groups + [g])[i] == groups[i];
      }
    }
  }

  /** Appending a closed group keeps every group closed. */
  lemma AppendComponents(segments: set<Segment>, groups: seq<SegmentGroup>, g: SegmentGroup)
    requires Components(segments, groups)
    requires forall p :: p in g.segments ==> ClosedAt(p, segments, g.segments)
    ensures Components(segments, groups + [g])
  {
  }

  /** Taking a segment from the pool makes it the seed of a new group. */
  lemma PoolPick(segments: set<Segment>, segMap: map<int, Segment>, indices: set<int>,
                 tmp: set<Segment>, done: set<Segment>, segment: Segment)
    requires Pool(segments, tmp, done, {}) && Freed(segMap, indices, done, {}) && segment in tmp
    ensures segment in segments && segment !in done
    ensures Pool(segments, tmp - {segment}, done, {segment})
  {
  }

  /** A finished group joins the finished ones. */
  lemma PoolSettle(segments: set<Segment>, segMap: map<int, Segment>, indices: set<int>,
                   tmp: set<Segment>, done: set<Segment>, group: set<Segment>)
    requires Pool(segments, tmp, done, group) && Freed(segMap, indices, done, group)
    ensures Pool(segments, tmp, done + group, {}) && Freed(segMap, indices, done + group, {})
  {
  }

  /** What holds between turns of the loop of `merge_segments`. */
  ghost predicate Merging(segments: set<Segment>, segMap: map<int, Segment>, tmp: set<Segment>,
                          indices: set<int>, groups: seq<SegmentGroup>, done: set<Segment>)
  {
    IndexMap(segMap, segments) && indices <= segMap.Keys &&
    Pool(segments, tmp, done, {}) && Freed(segMap, indices, done, {}) &&
    done == Members(groups) && Numbered(groups) && AllConnected(segments, groups) &&
    (WellLinked(segments) ==> Disjoint(groups) && Components(segments, groups))
  }

  /** One turn of the loop of `merge_segments`: a segment popped from the
      pool seeds a new group, numbered next. */
  method NextGroup(segments: set<Segment>, segMap: map<int, Segment>, tmp: set<Segment>,
                   indices: set<int>, groups: seq<SegmentGroup>, ghost done: set<Segment>)
    returns (tmp': set<Segment>, indices': set<int>, groups': seq<SegmentGroup>, ghost done': set<Segment>)
    requires tmp != {} && Merging(segments, segMap, tmp, indices, groups, done)
    ensures Merging(segments, segMap, tmp', indices', groups', done')
    ensures |tmp'| < |tmp|
  {
    var segment :| segment in tmp;
    PoolPick(segments, segMap, indices, tmp, done, segment);
    var pool := tmp - {segment};
    if WellLinked(segments) {
      ClosedMembers(segments, groups);
    }
    var group;
    tmp', indices', group := GrowGroup(segments, segMap, segment, pool, indices, done);
    PoolSettle(segments, segMap, indices', tmp', done, group);
    var g := SegmentGroup(|groups|, group);
    assert segment in group && ReachableFrom(segments, segment, group);
    AppendConnected(segments, groups, g);
    AppendGroup(groups, g);
    if WellLinked(segments) {
      AppendDisjoint(groups, g);
      AppendComponents(segments, groups, g);
    }
    groups' := groups + [g];
    done' := done + group;
  }

  /** `merge_segments`: the candidates are split into groups, numbered in
      the order they are made; every candidate lands in some group, every
      group is non-empty, and every group is connected: some member reaches
      all the others through neighbour indices. When the segments are well
      linked, the groups are also closed under neighbourhood: pairwise
      disjoint, and no segment of a group neighbours a candidate outside it;
      they are then exactly the connected components (`MergedComponents`). */
  method MergeSegments(segments: set<Segment>) returns (groups: seq<SegmentGroup>)
    ensures Numbered(groups)
    ensures Members(groups) == segments
    ensures AllConnected(segments, groups)
    ensures WellLinked(segments) ==> Disjoint(groups) && Components(segments, groups)
  {
    var tmp := segments;
    var segMap := KeyedBy(segments, (s: Segment) => s.index);
    var indices := segMap.Keys;
    groups := [];
    ghost var done: set<Segment> := {};
    MergeStart(segments, segMap);
    while tmp != {}
      invariant Merging(segments, segMap, tmp, indices, groups, done)
      decreases |tmp|
    {
      tmp, indices, groups, done := NextGroup(segments, segMap, tmp, indices, groups, done);
    }
    MergeEnd(segments, segMap, indices, groups, done);
  }

  /** Before the first turn nothing is grouped and every index is free. */
  lemma MergeStart(segments: set<Segment>, segMap: map<int, Segment>)
    requires IndexMap(segMap, segments)
    ensures Merging(segments, segMap, segments, segMap.Keys, [], {})
  {
  }

  /** Once the pool is empty, the groups hold every candidate. */
  lemma MergeEnd(segments: set<Segment>, segMap: map<int, Segment>, indices: set<int>,
                 groups: seq<SegmentGroup>, done: set<Segment>)
    requires Merging(segments, segMap, {}, indices, groups, done)
    ensures Numbered(groups) && Members(groups) == segments
    ensures AllConnected(segments, groups)
    ensures WellLinked(segments) ==> Disjoint(groups) && Components(segments, groups)
  {
  }

  /** Connected groups that together hold the well-linked candidates and
      are closed under neighbourhood are exactly the connected components:
      from any member of a group, a candidate is reachable if and only if it
      is in that group. */
  lemma MergedComponents(segments: set<Segment>, groups: seq<SegmentGroup>)
    requires WellLinked(segments) && Members(groups) == segments
    requires AllConnected(segments, groups) && Components(segments, groups)
    ensures forall i, a, b :: 0 <= i < |groups| && a in groups[i].segments && b in segments ==>
              (b in groups[i].segments <==> Reachable(segments, a, b))
  {
    forall i, a, b | 0 <= i < |groups| && a in groups[i].segments && b in segments
      ensures b in groups[i].segments <==> Reachable(segments, a, b)
    {
      var group := groups[i].segments;
      if Reachable(segments, a, b) {
        var path: seq<Segment> :| Walk(segments, path) && |path| >= 1 && path[0] == a && path[|path| - 1] == b;
        WalkStays(segments, group, path);
      }
      if b in group {
        assert Connected(segments, group);
        var seed :| seed in group && ReachableFrom(segments, seed, group);
        assert seed in Members(groups);
        ReachBack(segments, seed, a);
        ReachJoin(segments, a, seed, b);
      }
    }
  }

  /** Groups closed one by one make a closed union. */
  lemma ClosedMembers(segments: set<Segment>, groups: seq<SegmentGroup>)
    requires Components(segments, groups)
    ensures ClosedSet(segments, Members(groups))
  {
    forall t, u | t in Members(groups) && u in segments && u.index in t.neighbours
      ensures u in Members(groups)
    {
      var i :| 0 <= i < |groups| && t in groups[i].segments;
      assert ClosedAt(t, segments, groups[i].segments);
    }
  }

  // ---------------------------------------------------------------------
  // Chaining boxes into words and sentences
  // ---------------------------------------------------------------------

  /** The tuple positions X1, Y1, X2, Y2 the chaining reads: for horizontal
      text the reading axis is x, for vertical text the axes are swapped. */
  function X1(horizontal: bool): nat { if horizontal then 0 else 1 }
  function Y1(horizontal: bool): nat { if horizontal then 1 else 0 }
  function X2(horizontal: bool): nat { if horizontal then 2 else 3 }
  function Y2(horizontal: bool): nat { if horizontal then 3 else 2 }

  /** The key a chain's first box minimises: `x1 + y1`, whatever the axis. */
  function Corner(b: Box): int
  {
    b.x1 + b.y1
  }

  /** `c` may follow `cur` in a chain whose first box is `head`: it starts
      no earlier than `cur` along the reading axis and at most `delta` past
      the end of `cur`, and across the axis it overlaps the head's extent. */
  predicate Follows(c: Box, cur: Box, head: Box, delta: int, horizontal: bool)
  {
    var x1, y1, x2, y2 := X1(horizontal), Y1(horizontal), X2(horizontal), Y2(horizontal);
    c.At(x1) >= cur.At(x1) && c.At(x1) - cur.At(x2) <= delta &&
    c.At(y1) <= head.At(y2) && c.At(y2) >= head.At(y1)
  }

  /** `b` has the least corner key in `pool`. */
  predicate Lowest(pool: set<Box>, b: Box)
  {
    b in pool && forall c :: c in pool ==> Corner(b) <= Corner(c)
  }

  /** `c` is, among the boxes of `pool` not yet `taken` that may follow
      `cur`, one reaching furthest across the axis. */
  ghost predicate BestNext(pool: set<Box>, taken: seq<Box>, cur: Box, head: Box, c: Box,
                           delta: int, horizontal: bool)
  {
    c in pool && c !in taken && Follows(c, cur, head, delta, horizontal) &&
    forall d :: d in pool && d !in taken && Follows(d, cur, head, delta, horizontal) ==>
      d.At(Y2(horizontal)) <= c.At(Y2(horizontal))
  }

  /** Every box of the chain after the first is a best follower of the one
      before it, among the boxes of `pool` not taken before it. */
  ghost predicate Links(pool: set<Box>, chain: seq<Box>, delta: int, horizontal: bool)
    requires |chain| >= 1
  {
    forall j :: 0 < j < |chain| ==>
      BestNext(pool, chain[..j], chain[j - 1], chain[0], chain[j], delta, horizontal)
  }

  /** A chain grown greedily from `pool`: it starts at a box of least corner
      key, every next box is a best follower of the previous one among the
      boxes not yet taken, and no remaining box may follow the last one. */
  ghost predicate ChainFrom(pool: set<Box>, chain: seq<Box>, delta: int, horizontal: bool)
  {
    |chain| >= 1 && Lowest(pool, chain[0]) && Links(pool, chain, delta, horizontal) &&
    forall d :: d in pool && d !in chain ==> !Follows(d, chain[|chain| - 1], chain[0], delta, horizontal)
  }

  /** Appending a best follower of the last box keeps the links. */
  lemma LinksGrow(pool: set<Box>, chain: seq<Box>, c: Box, delta: int, horizontal: bool)
    requires |chain| >= 1 && Links(pool, chain, delta, horizontal)
    requires BestNext(pool, chain, chain[|chain| - 1], chain[0], c, delta, horizontal)
    ensures Links(pool, chain + [c], delta, horizontal)
  {
    var chain' := chain + [c];
    forall j | 0 < j < |chain'|
      ensures BestNext(pool, chain'[..j], chain'[j - 1], chain'[0], chain'[j], delta, horizontal)
    {
      if j < |chain| {
        assert chain'[..j] == chain[..j];
      } else {
        assert chain'[..j] == chain;
      }
    }
  }

  /** A non-empty pool has a box of least corner key. */
  lemma {:induction false} LowestExists(pool: set<Box>)
    requires pool != {}
    ensures exists b :: Lowest(pool, b)
  {
    var x :| x in pool;
    if pool != {x} {
      LowestExists(pool - {x});
      var b :| Lowest(pool - {x}, b);
      if Corner(x) < Corner(b) {
        assert Lowest(pool, x);
      } else {
        assert Lowest(pool, b);
      }
    } else {
      assert Lowest(pool, x);
    }
  }

  /** Among non-empty candidates one reaches furthest across the axis. */
  lemma {:induction false} HighestExists(cands: set<Box>, horizontal: bool)
    requires cands != {}
    ensures exists c :: c in cands && forall d :: d in cands ==> d.At(Y2(horizontal)) <= c.At(Y2(horizontal))
  {
    var x :| x in cands;
    if cands != {x} {
      HighestExists(cands - {x}, horizontal);
      var c :| c in cands - {x} && forall d :: d in cands - {x} ==> d.At(Y2(horizontal)) <= c.At(Y2(horizontal));
      if x.At(Y2(horizontal)) > c.At(Y2(horizontal)) {
        assert forall d :: d in cands ==> d.At(Y2(horizontal)) <= x.At(Y2(horizontal));
      } else {
        assert forall d :: d in cands ==> d.At(Y2(horizontal)) <= c.At(Y2(horizontal));
      }
    } else {
      assert forall d :: d in cands ==> d.At(Y2(horizontal)) <= x.At(Y2(horizontal));
    }
  }

  /** The boxes of `rest` that may follow `cur`. */
  function Followers(rest: set<Box>, cur: Box, head: Box, delta: int, horizontal: bool): (r: set<Box>)
    ensures forall c :: c in r <==> c in rest && Follows(c, cur, head, delta, horizontal)
  {
    set c | c in rest && Follows(c, cur, head, delta, horizontal)
  }

  /** The inner loop of `group`: starting from `head`, the best follower of
      the last box is appended and removed from the pool until none is
      left. */
  method ExtendChain(pool: set<Box>, head: Box, delta: int, horizontal: bool)
    returns (chain: seq<Box>, rest: set<Box>)
    requires Lowest(pool, head)
    ensures ChainFrom(pool, chain, delta, horizontal)
    ensures forall b :: b in rest <==> b in pool && b !in chain
    ensures |rest| < |pool|
  {
    chain := [head];
    rest := pool - {head};
    var cur := head;
    var eligible := Followers(rest, cur, head, delta, horizontal);
    while eligible != {}
      invariant |chain| >= 1 && chain[0] == head && cur == chain[|chain| - 1]
      invariant forall b :: b in rest <==> b in pool && b !in chain
      invariant |rest| < |pool|
      invariant eligible == Followers(rest, cur, head, delta, horizontal)
      invariant Links(pool, chain, delta, horizontal)
      decreases |rest|
    {
      HighestExists(eligible, horizontal);
      var c :| c in eligible &&
               forall d :: d in eligible ==> d.At(Y2(horizontal)) <= c.At(Y2(horizontal));
      LinksGrow(pool, chain, c, delta, horizontal);
      chain := chain + [c];
      rest := rest - {c};
      cur := c;
      eligible := Followers(rest, cur, head, delta, horizontal);
    }
  }

  /** The values `boundMap` gives the boxes of a chain. */
  function ChainValues<T>(boundMap: map<Box, T>, chain: seq<Box>): (r: set<T>)
    ensures forall b :: b in chain && b in boundMap ==> boundMap[b] in r
    ensures forall t :: t in r ==> exists b :: b in chain && b in boundMap && boundMap[b] == t
  {
    set b | b in chain && b in boundMap :: boundMap[b]
  }

  /** What `group` returns: the rounds, their chains, and the pools they
      were drawn from. */
  ghost predicate Grouping<T>(boundMap: map<Box, T>, delta: int, horizontal: bool,
                              groups: seq<set<T>>, chains: seq<seq<Box>>, pools: seq<set<Box>>)
  {
    |groups| == |chains| && |pools| == |chains| + 1 &&
    pools[0] == boundMap.Keys && pools[|chains|] == {} &&
    forall i {:trigger chains[i]} :: 0 <= i < |chains| ==>
      ChainFrom(pools[i], chains[i], delta, horizontal) &&
      (forall b :: b in pools[i + 1] <==> b in pools[i] && b !in chains[i]) &&
      groups[i] == ChainValues(boundMap, chains[i])
  }

  /** `group`: the boxes of `boundMap` are chained greedily, round after
      round, each round starting from the remaining box of least corner
      key; each chain gives one group, the values of its boxes. `pools[i]`
      is what remains before round `i`, and every round takes its chain out
      of it until nothing remains. */
  method Group<T>(boundMap: map<Box, T>, delta: int, horizontal: bool)
    returns (groups: seq<set<T>>, ghost chains: seq<seq<Box>>, ghost pools: seq<set<Box>>)
    ensures Grouping(boundMap, delta, horizontal, groups, chains, pools)
  {
    var boundSet := boundMap.Keys;
    groups, chains, pools := [], [], [boundSet];
    while boundSet != {}
      invariant |groups| == |chains| && |pools| == |chains| + 1
      invariant pools[0] == boundMap.Keys && pools[|chains|] == boundSet
      invariant forall i {:trigger chains[i]} :: 0 <= i < |chains| ==>
                  ChainFrom(pools[i], chains[i], delta, horizontal) &&
                  (forall b :: b in pools[i + 1] <==> b in pools[i] && b !in chains[i]) &&
                  groups[i] == ChainValues(boundMap, chains[i])
      decreases |boundSet|
    {
      LowestExists(boundSet);
      var cur :| Lowest(boundSet, cur);
      var chain, rest := ExtendChain(boundSet, cur, delta, horizontal);
      groups := groups + [ChainValues(boundMap, chain)];
      chains := chains + [chain];
      pools := pools + [rest];
      boundSet := rest;
    }
  }

  /** A chain is drawn from its pool and takes no box twice. */
  lemma ChainInPool(pool: set<Box>, chain: seq<Box>, delta: int, horizontal: bool)
    requires ChainFrom(pool, chain, delta, horizontal)
    ensures forall j :: 0 <= j < |chain| ==> chain[j] in pool
    ensures forall j, k :: 0 <= j < k < |chain| ==> chain[j] != chain[k]
  {
    forall j | 0 < j < |chain|
      ensures chain[j] in pool
    {
      assert BestNext(pool, chain[..j], chain[j - 1], chain[0], chain[j], delta, horizontal);
    }
    forall j, k | 0 <= j < k < |chain|
      ensures chain[j] != chain[k]
    {
      assert BestNext(pool, chain[..k], chain[k - 1], chain[0], chain[k], delta, horizontal);
      assert chain[j] in chain[..k];
    }
  }

  /** Pools only shrink from round to round. */
  lemma {:induction false} PoolsShrink<T>(boundMap: map<Box, T>, delta: int, horizontal: bool,
                                          groups: seq<set<T>>, chains: seq<seq<Box>>,
                                          pools: seq<set<Box>>, i: nat, k: nat)
    requires Grouping(boundMap, delta, horizontal, groups, chains, pools)
    requires i <= k <= |chains|
    ensures pools[k] <= pools[i]
    decreases k - i
  {
    if i < k {
      var chain := chains[i];
      assert forall b :: b in pools[i + 1] ==> b in pools[i] && b !in chain;
      PoolsShrink(boundMap, delta, horizontal, groups, chains, pools, i + 1, k);
    }
  }

  /** A box still in the pool before round `k` is chained in round `k` or
      later. */
  lemma {:induction false} ChainedLater<T>(boundMap: map<Box, T>, delta: int, horizontal: bool,
                                           groups: seq<set<T>>, chains: seq<seq<Box>>,
                                           pools: seq<set<Box>>, b: Box, k: nat)
    requires Grouping(boundMap, delta, horizontal, groups, chains, pools)
    requires k <= |chains| && b in pools[k]
    ensures exists i :: k <= i < |chains| && b in chains[i]
    decreases |chains| - k
  {
    if b in chains[k] {
    } else {
      assert b in pools[k + 1];
      ChainedLater(boundMap, delta, horizontal, groups, chains, pools, b, k + 1);
    }
  }

  /** `group` takes every box exactly once: each box of the map lies in a
      chain, no two chains share a box, and no chain repeats one. */
  lemma GroupPartition<T>(boundMap: map<Box, T>, delta: int, horizontal: bool,
                          groups: seq<set<T>>, chains: seq<seq<Box>>, pools: seq<set<Box>>)
    requires Grouping(boundMap, delta, horizontal, groups, chains, pools)
    ensures forall b :: b in boundMap ==> exists i :: 0 <= i < |chains| && b in chains[i]
    ensures forall i, j, b :: 0 <= i < j < |chains| && b in chains[i] ==> b !in chains[j]
    ensures forall i, j, k :: 0 <= i < |chains| && 0 <= j < k < |chains[i]| ==> chains[i][j] != chains[i][k]
    ensures forall i, b :: 0 <= i < |chains| && b in chains[i] ==> b in boundMap
  {
    forall b | b in boundMap
      ensures exists i :: 0 <= i < |chains| && b in chains[i]
    {
      ChainedLater(boundMap, delta, horizontal, groups, chains, pools, b, 0);
    }
    ChainsInMap(boundMap, delta, horizontal, groups, chains, pools);
    ChainsDisjoint(boundMap, delta, horizontal, groups, chains, pools);
  }

  /** Every chain draws distinct boxes of the map. */
  lemma ChainsInMap<T>(boundMap: map<Box, T>, delta: int, horizontal: bool,
                       groups: seq<set<T>>, chains: seq<seq<Box>>, pools: seq<set<Box>>)
    requires Grouping(boundMap, delta, horizontal, groups, chains, pools)
    ensures forall i, j, k :: 0 <= i < |chains| && 0 <= j < k < |chains[i]| ==> chains[i][j] != chains[i][k]
    ensures forall i, b :: 0 <= i < |chains| && b in chains[i] ==> b in boundMap
  {
    forall i | 0 <= i < |chains|
      ensures forall j, k :: 0 <= j < k < |chains[i]| ==> chains[i][j] != chains[i][k]
      ensures forall b :: b in chains[i] ==> b in pools[i] && b in boundMap
    {
      ChainInPool(pools[i], chains[i], delta, horizontal);
      PoolsShrink(boundMap, delta, horizontal, groups, chains, pools, 0, i);
    }
  }

  /** A box chained in one round is out of every later pool, so no later
      chain takes it again. */
  lemma ChainsDisjoint<T>(boundMap: map<Box, T>, delta: int, horizontal: bool,
                          groups: seq<set<T>>, chains: seq<seq<Box>>, pools: seq<set<Box>>)
    requires Grouping(boundMap, delta, horizontal, groups, chains, pools)
    ensures forall i, j, b :: 0 <= i < j < |chains| && b in chains[i] ==> b !in chains[j]
  {
    forall i, j, b | 0 <= i < j < |chains| && b in chains[i]
      ensures b !in chains[j]
    {
      assert b !in pools[i + 1];
      PoolsShrink(boundMap, delta, horizontal, groups, chains, pools, i + 1, j);
      ChainInPool(pools[j], chains[j], delta, horizontal);
    }
  }

  /** The groups together hold exactly the values of the map. */
  lemma GroupValues<T>(boundMap: map<Box, T>, delta: int, horizontal: bool,
                       groups: seq<set<T>>, chains: seq<seq<Box>>, pools: seq<set<Box>>)
    requires Grouping(boundMap, delta, horizontal, groups, chains, pools)
    ensures forall t :: t in boundMap.Values <==> exists i :: 0 <= i < |groups| && t in groups[i]
  {
    forall t | t in boundMap.Values
      ensures exists i :: 0 <= i < |groups| && t in groups[i]
    {
      var b :| b in boundMap && boundMap[b] == t;
      ChainedLater(boundMap, delta, horizontal, groups, chains, pools, b, 0);
      var i :| 0 <= i < |chains| && b in chains[i];
      assert groups[i] == ChainValues(boundMap, chains[i]);
    }
    forall t, i | 0 <= i < |groups| && t in groups[i]
      ensures t in boundMap.Values
    {
      assert groups[i] == ChainValues(boundMap, chains[i]);
      var b :| b in chains[i] && b in boundMap && boundMap[b] == t;
    }
  }

  /** Every group `group` makes is non-empty. */
  lemma GroupNonEmpty<T>(boundMap: map<Box, T>, delta: int, horizontal: bool,
                         groups: seq<set<T>>, chains: seq<seq<Box>>, pools: seq<set<Box>>)
    requires Grouping(boundMap, delta, horizontal, groups, chains, pools)
    ensures forall i :: 0 <= i < |groups| ==> groups[i] != {}
  {
    forall i | 0 <= i < |groups|
      ensures groups[i] != {}
    {
      PoolsShrink(boundMap, delta, horizontal, groups, chains, pools, 0, i);
      assert chains[i][0] in pools[i];
      assert boundMap[chains[i][0]] in ChainValues(boundMap, chains[i]);
    }
  }

  // ---------------------------------------------------------------------
  // Text regions
  // ---------------------------------------------------------------------

  /** A loop that sorts the items into those `test` accepts and the rest. */
  method Partition<T>(items: set<T>, test: T -> bool) returns (yes: set<T>, no: set<T>)
    ensures forall x :: x in yes <==> x in items && test(x)
    ensures forall x :: x in no <==> x in items && !test(x)
  {
    yes, no := {}, {};
    var rest := items;
    while rest != {}
      invariant rest <= items
      invariant forall x :: x in yes <==> x in items && x !in rest && test(x)
      invariant forall x :: x in no <==> x in items && x !in rest && !test(x)
      decreases |rest|
    {
      var x :| x in rest;
      rest := rest - {x};
      if test(x) {
        yes := yes + {x};
      } else {
        no := no + {x};
      }
    }
  }

  /** The groups made by `group`, each as a region of its members. */
  function Wrap(groups: seq<set<Region>>): (r: set<Region>)
    ensures forall i :: 0 <= i < |groups| ==> Grouped(groups[i]) in r
    ensures forall x :: x in r ==> x.Grouped? && exists i :: 0 <= i < |groups| && x.parts == groups[i]
  {
    set i | 0 <= i < |groups| :: Grouped(groups[i])
  }

  /** `boundMap` is a dictionary of the regions `items` keyed by their
      bounds. */
  ghost predicate BoundMapOf(boundMap: map<Box, Region>, items: set<Region>, m: Measures)
  {
    (forall t :: t in items ==> m.bounds(t) in boundMap) &&
    (forall k :: k in boundMap ==> boundMap[k] in items && m.bounds(boundMap[k]) == k)
  }

  /** `made` is what one call of `group` over `boundMap` returns: the
      groups of some run of the chaining, each as a region. */
  ghost predicate GroupedBy(boundMap: map<Box, Region>, delta: int, horizontal: bool, made: set<Region>)
  {
    exists groups, chains, pools ::
      Grouping(boundMap, delta, horizontal, groups, chains, pools) && made == Wrap(groups)
  }

  /** What any call of `group` makes: non-empty groups of values of the
      dictionary, every value being part of one of them. */
  lemma GroupedByShape(boundMap: map<Box, Region>, delta: int, horizontal: bool, made: set<Region>)
    requires GroupedBy(boundMap, delta, horizontal, made)
    ensures forall r :: r in made ==> r.Grouped? && r.parts != {}
    ensures forall r, t :: r in made && t in r.parts ==> t in boundMap.Values
    ensures forall k :: k in boundMap ==> exists r :: r in made && boundMap[k] in r.parts
  {
    var groups, chains, pools :| Grouping(boundMap, delta, horizontal, groups, chains, pools) && made == Wrap(groups);
    GroupNonEmpty(boundMap, delta, horizontal, groups, chains, pools);
    GroupValues(boundMap, delta, horizontal, groups, chains, pools);
    forall r, t | r in made && t in r.parts
      ensures t in boundMap.Values
    {
      var i :| 0 <= i < |groups| && r.parts == groups[i];
    }
    forall k | k in boundMap
      ensures exists r :: r in made && boundMap[k] in r.parts
    {
      var y := boundMap[k];
      assert y in boundMap.Values;
      var i :| 0 <= i < |groups| && y in groups[i];
      assert Grouped(groups[i]) in made;
    }
  }

  /** A call of `group` on regions keyed by their bounds: the regions it
      makes are the groups of a run of the chaining. Each is a non-empty
      group of values of the dictionary, and every value of the dictionary
      is a part of one of them. */
  method GroupRegions(boundMap: map<Box, Region>, ghost items: set<Region>, m: Measures,
                      delta: int, horizontal: bool)
    returns (made: set<Region>)
    requires BoundMapOf(boundMap, items, m)
    ensures GroupedBy(boundMap, delta, horizontal, made)
    ensures forall r :: r in made ==> r.Grouped? && r.parts != {} && r.parts <= items
    ensures forall r, t :: r in made && t in r.parts ==> t in boundMap.Values
    ensures forall k :: k in boundMap ==> exists r :: r in made && boundMap[k] in r.parts
  {
    var groups; ghost var chains, pools;
    groups, chains, pools := Group(boundMap, delta, horizontal);
    GroupNonEmpty(boundMap, delta, horizontal, groups, chains, pools);
    GroupValues(boundMap, delta, horizontal, groups, chains, pools);
    GroupedRegions(items, m, boundMap, groups);
    made := Wrap(groups);
  }

  /** The regions a round of `group` makes from regions keyed by their
      bounds. */
  lemma GroupedRegions(items: set<Region>, m: Measures, boundMap: map<Box, Region>,
                       groups: seq<set<Region>>)
    requires BoundMapOf(boundMap, items, m)
    requires forall i :: 0 <= i < |groups| ==> groups[i] != {}
    requires forall t :: t in boundMap.Values <==> exists i :: 0 <= i < |groups| && t in groups[i]
    ensures forall r :: r in Wrap(groups) ==> r.Grouped? && r.parts != {} && r.parts <= items
    ensures forall r, t :: r in Wrap(groups) && t in r.parts ==> t in boundMap.Values
    ensures forall k :: k in boundMap ==> exists r :: r in Wrap(groups) && boundMap[k] in r.parts
  {
    var made := Wrap(groups);
    forall r, t | r in made && t in r.parts
      ensures t in boundMap.Values && t in items
    {
      var i :| 0 <= i < |groups| && r.parts == groups[i];
      assert t in boundMap.Values;
    }
    forall k | k in boundMap
      ensures exists r :: r in made && boundMap[k] in r.parts
    {
      var y := boundMap[k];
      assert y in boundMap.Values;
      var i :| 0 <= i < |groups| && y in groups[i];
      assert Grouped(groups[i]) in made;
    }
  }

  /** The merged groups as regions, in list order. */
  function Letters(groups: seq<SegmentGroup>): (r: seq<Region>)
    ensures |r| == |groups| && forall i :: 0 <= i < |groups| ==> r[i] == Merged(groups[i])
  {
    seq(|groups|, i requires 0 <= i < |groups| => Merged(groups[i]))
  }

  /** The dictionary of a set of regions keyed by their bounds. */
  method RegionMap(items: set<Region>, m: Measures) returns (boundMap: map<Box, Region>)
    ensures BoundMapOf(boundMap, items, m)
  {
    boundMap := KeyedBy(items, m.bounds);
  }

  /** The dictionary of the merged groups keyed by their bounds; each key
      maps to the last group in the list with those bounds, so of two
      groups with equal bounds only the later one is chained. */
  method LetterMap(groups: seq<SegmentGroup>, m: Measures)
    returns (boundMap: map<Box, Region>, ghost letterSet: set<Region>)
    ensures LastWins(boundMap, Letters(groups), m.bounds)
    ensures forall r :: r in letterSet <==> r.Merged? && r.group in groups
    ensures BoundMapOf(boundMap, letterSet, m)
  {
    var letters := Letters(groups);
    boundMap := KeyedByList(letters, m.bounds);
    letterSet := set i | 0 <= i < |letters| :: letters[i];
    forall k | k in boundMap
      ensures boundMap[k] in letterSet
    {
      var i :| 0 <= i < |letters| && boundMap[k] == letters[i] && m.bounds(letters[i]) == k &&
               forall j :: i < j < |letters| ==> m.bounds(letters[j]) != k;
    }
    forall r: Region | r.Merged? && r.group in groups
      ensures r in letterSet
    {
      var i :| 0 <= i < |groups| && groups[i] == r.group;
      assert letters[i] == r;
    }
  }

  /** The words whose area exceeds the least word area. */
  function BigWords(words: set<Region>, cfg: Config, m: Measures): (r: set<Region>)
    ensures forall w :: w in r <==> w in words && m.area(w) > cfg.minWordArea
  {
    set w | w in words && m.area(w) > cfg.minWordArea
  }

  /** The sentences no wider than the vertical limit: vertical candidates. */
  function Narrow(sentences: set<Region>, cfg: Config, m: Measures): (r: set<Region>)
    ensures forall s :: s in r <==> s in sentences && m.width(s) <= cfg.maxVerticalHeight
  {
    set s | s in sentences && m.width(s) <= cfg.maxVerticalHeight
  }

  /** The sentences wider than the vertical limit: horizontal text. */
  function Wide(sentences: set<Region>, cfg: Config, m: Measures): (r: set<Region>)
    ensures forall s :: s in r <==> s in sentences && m.width(s) > cfg.maxVerticalHeight
  {
    set s | s in sentences && m.width(s) > cfg.maxVerticalHeight
  }

  /** The intermediate results of `extract_text_regions`: each dictionary
      handed to `group` and what that call returned. */
  datatype Passes = Passes(letterMap: map<Box, Region>, words: set<Region>,
                           wordMap: map<Box, Region>, sentences: set<Region>,
                           narrowMap: map<Box, Region>, verticalWords: set<Region>,
                           verticalWordMap: map<Box, Region>, verticalSentences: set<Region>)

  /** `regions` is what `extract_text_regions` returns for the merged
      `groups`: letters keyed by bounds (the last group wins) are chained
      into words; the words above the least area, keyed by bounds, into
      sentences; the narrow sentences are chained again with the axes
      swapped, into vertical words and then vertical sentences; the result
      is the wide sentences together with the vertical sentences. */
  ghost predicate Extracted(groups: seq<SegmentGroup>, cfg: Config, m: Measures, p: Passes,
                            regions: set<Region>)
  {
    LastWins(p.letterMap, Letters(groups), m.bounds) &&
    GroupedBy(p.letterMap, cfg.letterDelta, true, p.words) &&
    BoundMapOf(p.wordMap, BigWords(p.words, cfg, m), m) &&
    GroupedBy(p.wordMap, cfg.wordDelta, true, p.sentences) &&
    BoundMapOf(p.narrowMap, Narrow(p.sentences, cfg, m), m) &&
    GroupedBy(p.narrowMap, cfg.letterDelta, false, p.verticalWords) &&
    BoundMapOf(p.verticalWordMap, p.verticalWords, m) &&
    GroupedBy(p.verticalWordMap, cfg.wordDelta, false, p.verticalSentences) &&
    regions == Wide(p.sentences, cfg, m) + p.verticalSentences
  }

  /** Every region `extract_text_regions` returns is a non-empty group;
      every wide sentence is returned, and its parts are words above the
      least area; every vertical sentence is made of vertical words, each
      made of narrow sentences. */
  lemma ExtractedShape(groups: seq<SegmentGroup>, cfg: Config, m: Measures, p: Passes, regions: set<Region>)
    requires Extracted(groups, cfg, m, p, regions)
    ensures forall r :: r in regions ==> r.Grouped? && r.parts != {}
    ensures forall r :: r in Wide(p.sentences, cfg, m) ==>
              r in regions && m.width(r) > cfg.maxVerticalHeight &&
              forall w :: w in r.parts ==> w in p.words && w.Grouped? && m.area(w) > cfg.minWordArea
    ensures forall r, w :: r in p.verticalSentences && w in r.parts ==>
              w in p.verticalWords && forall s :: s in w.parts ==> s in Narrow(p.sentences, cfg, m)
  {
    GroupedByShape(p.letterMap, cfg.letterDelta, true, p.words);
    GroupedByShape(p.wordMap, cfg.wordDelta, true, p.sentences);
    GroupedByShape(p.narrowMap, cfg.letterDelta, false, p.verticalWords);
    GroupedByShape(p.verticalWordMap, cfg.wordDelta, false, p.verticalSentences);
    forall r, w | r in p.sentences && w in r.parts
      ensures w in BigWords(p.words, cfg, m)
    {
      assert w in p.wordMap.Values;
      var k :| k in p.wordMap && p.wordMap[k] == w;
    }
    forall r, w | r in p.verticalSentences && w in r.parts
      ensures w in p.verticalWords
    {
      assert w in p.verticalWordMap.Values;
      var k :| k in p.verticalWordMap && p.verticalWordMap[k] == w;
    }
    forall w, s | w in p.verticalWords && s in w.parts
      ensures s in Narrow(p.sentences, cfg, m)
    {
      assert s in p.narrowMap.Values;
      var k :| k in p.narrowMap && p.narrowMap[k] == s;
    }
  }

  /** The horizontal pass of `extract_text_regions`: letters are chained
      into words, and the words whose area exceeds the least word area into
      sentences. Every letter the dictionary keeps is part of a word, and
      every big word is part of a sentence. */
  method HorizontalSentences(groups: seq<SegmentGroup>, cfg: Config, m: Measures)
    returns (sentences: set<Region>, ghost letterMap: map<Box, Region>, ghost words: set<Region>,
             ghost wordMap: map<Box, Region>)
    ensures LastWins(letterMap, Letters(groups), m.bounds)
    ensures GroupedBy(letterMap, cfg.letterDelta, true, words)
    ensures BoundMapOf(wordMap, BigWords(words, cfg, m), m)
    ensures GroupedBy(wordMap, cfg.wordDelta, true, sentences)
    ensures forall k :: k in letterMap ==> exists w :: w in words && letterMap[k] in w.parts
    ensures forall k :: k in wordMap ==> exists r :: r in sentences && wordMap[k] in r.parts
    ensures forall r :: r in sentences ==> r.Grouped? && r.parts != {}
    ensures forall r, w :: r in sentences && w in r.parts ==> w.Grouped? && m.area(w) > cfg.minWordArea
  {
    var lm; ghost var letterSet;
    lm, letterSet := LetterMap(groups, m);
    letterMap := lm;
    var made := GroupRegions(lm, letterSet, m, cfg.letterDelta, true);
    words := made;
    var bigWords := BigWords(made, cfg, m);
    var wm := RegionMap(bigWords, m);
    wordMap := wm;
    sentences := GroupRegions(wm, bigWords, m, cfg.wordDelta, true);
  }

  /** The vertical pass of `extract_text_regions`: the narrow sentences
      are chained again with the axes swapped, into vertical words and
      sentences. Every narrow sentence the dictionary keeps is part of a
      vertical word, and every vertical word it keeps of a vertical
      sentence. */
  method VerticalSentences(narrow: set<Region>, cfg: Config, m: Measures)
    returns (sentences: set<Region>, ghost narrowMap: map<Box, Region>, ghost words: set<Region>,
             ghost wordMap: map<Box, Region>)
    ensures BoundMapOf(narrowMap, narrow, m)
    ensures GroupedBy(narrowMap, cfg.letterDelta, false, words)
    ensures BoundMapOf(wordMap, words, m)
    ensures GroupedBy(wordMap, cfg.wordDelta, false, sentences)
    ensures forall k :: k in narrowMap ==> exists w :: w in words && narrowMap[k] in w.parts
    ensures forall k :: k in wordMap ==> exists r :: r in sentences && wordMap[k] in r.parts
    ensures forall r :: r in sentences ==> r.Grouped? && r.parts != {}
  {
    var nm := RegionMap(narrow, m);
    narrowMap := nm;
    var made := GroupRegions(nm, narrow, m, cfg.letterDelta, false);
    words := made;
    var wm := RegionMap(made, m);
    wordMap := wm;
    sentences := GroupRegions(wm, made, m, cfg.wordDelta, false);
  }

  /** `extract_text_regions`: the horizontal sentences are split by width;
      the wide ones are kept as horizontal text and the narrow ones go
      through the vertical pass. */
  method ExtractTextRegions(groups: seq<SegmentGroup>, cfg: Config, m: Measures)
    returns (regions: set<Region>, ghost passes: Passes)
    ensures Extracted(groups, cfg, m, passes, regions)
  {
    var sentences; ghost var letterMap, words, wordMap;
    sentences, letterMap, words, wordMap := HorizontalSentences(groups, cfg, m);
    var narrow, wide := Partition(sentences, (s: Region) => m.width(s) <= cfg.maxVerticalHeight);
    assert narrow == Narrow(sentences, cfg, m);
    assert wide == Wide(sentences, cfg, m);
    var vertical; ghost var narrowMap, verticalWords, verticalWordMap;
    vertical, narrowMap, verticalWords, verticalWordMap := VerticalSentences(narrow, cfg, m);
    regions := wide + vertical;
    passes := Passes(letterMap, words, wordMap, sentences, narrowMap, verticalWords, verticalWordMap, vertical);
  }

  /** The workflow of `extract_text` before the OCR step: the size filter
      over the caller's segments, letter clearing (which deletes internal
      letter parts from the caller's collection), merging into groups, and
      the extraction of text regions from them. */
  method TextCandidates(store: SegmentStore, cfg: Config, m: Measures)
    returns (regions: set<Region>, ghost fitting: set<Segment>, ghost letters: set<Segment>,
             ghost groups: seq<SegmentGroup>, ghost passes: Passes)
    modifies store
    ensures forall s :: s in fitting <==> s in old(store.segments) && Fits(s, cfg.maxWidth, cfg.maxHeight)
    ensures forall s :: s in letters <==> s in fitting && HasOutsideNeighbour(s, Indices(fitting))
    ensures store.segments == old(store.segments) - (fitting - letters)
    ensures Numbered(groups) && Members(groups) == letters
    ensures AllConnected(letters, groups)
    ensures WellLinked(letters) ==> Disjoint(groups) && Components(letters, groups)
    ensures Extracted(groups, cfg, m, passes, regions)
    ensures forall r :: r in regions ==> r.Grouped? && r.parts != {}
  {
    var candidates := BoxFilter(store.segments, cfg.maxWidth, cfg.maxHeight);
    fitting := candidates;
    var removed;
    candidates, removed := ClearLetters(store, candidates);
    letters := candidates;
    var merged := MergeSegments(candidates);
    groups := merged;
    regions, passes := ExtractTextRegions(merged, cfg, m);
    ExtractedShape(merged, cfg, m, passes, regions);
  }

  // ---------------------------------------------------------------------
  // The filter's entry point
  // ---------------------------------------------------------------------

  /** The filter's failure: a key missing from the storage. */
  datatype FilterError = CampFilterError(missing: string)

  /** What the filter leaves for the next one: the segments split by genre
      and the text-region candidates. */
  datatype Recognized = Recognized(textual: set<Segment>, graphical: set<Segment>,
                                   candidates: set<Region>)

  /** The storage shared by the filters, keyed by filter name and then by
      item name. */
  type Storage = map<string, map<string, SegmentStore>>

  /** The segmentizer's segments in the storage, or the missing key. */
  function SegmentsOf(storage: Storage): (r: Result<SegmentStore, FilterError>)
    ensures r.Ok? <==> "Segmentizer" in storage && "segments" in storage["Segmentizer"]
    ensures r.Ok? ==> r.value == storage["Segmentizer"]["segments"]
    ensures r.Err? ==> r.error.missing == if "Segmentizer" in storage then "segments" else "Segmentizer"
  {
    if "Segmentizer" !in storage then Err(CampFilterError("Segmentizer"))
    else if "segments" !in storage["Segmentizer"] then Err(CampFilterError("segments"))
    else Ok(storage["Segmentizer"]["segments"])
  }

  /** `process`: a missing segmentizer result is an error; otherwise the
      text candidates are extracted, which deletes the internal letter
      parts from the caller's collection, and the segments left in it are
      split into the textual ones, whose genre is text, and the graphical
      rest. */
  method Process(storage: Storage, cfg: Config, m: Measures)
    returns (r: Result<Recognized, FilterError>, ghost fitting: set<Segment>, ghost letters: set<Segment>,
             ghost groups: seq<SegmentGroup>, ghost passes: Passes)
    modifies if SegmentsOf(storage).Ok? then {SegmentsOf(storage).value} else {}
    ensures SegmentsOf(storage).Err? ==> r == Err(SegmentsOf(storage).error)
    ensures SegmentsOf(storage).Ok? ==> r.Ok?
    ensures r.Ok? ==>
              var store := SegmentsOf(storage).value;
              (forall s :: s in fitting <==> s in old(store.segments) && Fits(s, cfg.maxWidth, cfg.maxHeight)) &&
              (forall s :: s in letters <==> s in fitting && HasOutsideNeighbour(s, Indices(fitting))) &&
              store.segments == old(store.segments) - (fitting - letters) &&
              Numbered(groups) && Members(groups) == letters &&
              AllConnected(letters, groups) &&
              Extracted(groups, cfg, m, passes, r.value.candidates)
    ensures r.Ok? ==>
              var segments := SegmentsOf(storage).value.segments;
              (forall s :: s in r.value.textual <==> s in segments && s.genre.Text?) &&
              (forall s :: s in r.value.graphical <==> s in segments && !s.genre.Text?)
  {
    var found := SegmentsOf(storage);
    if found.Err? {
      return Err(found.error), {}, {}, [], Passes(map[], {}, map[], {}, map[], {}, map[], {});
    }
    var store := found.value;
    var candidates;
    candidates, fitting, letters, groups, passes := TextCandidates(store, cfg, m);
    var textual, graphical := Partition(store.segments, (s: Segment) => s.genre.Text?);
    r := Ok(Recognized(textual, graphical, candidates));
  }
}
