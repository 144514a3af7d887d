/** The colour quantizer: a greedy seeding heuristic that picks a variable
    number of initial clusters from an image's colour histogram, and the
    pass that repaints every pixel with its cluster's centroid colour.
    Colour channels are `real`s; the metric, the colour-space converters
    and the k-means refinement are supplied as functions. */
module Quantization {
  import opened Wrappers
  import Strings

  /** A colour, in the stored RGB space or in the working colour space. */
  type Vec = seq<real>

  /** A distance function between colours. */
  type Metric = (Vec, Vec) -> real

  /** A colour-space converter. */
  type Codec = Vec -> Vec

  /** The exceptions the quantizer raises. */
  datatype QuantError = TypeError | ValueError | AttributeError | ZeroDivisionError | UnboundLocalError

  /** One entry of the image's histogram: a pixel count and the encoded colour. */
  datatype ColorCount = ColorCount(count: nat, vec: Vec)

  // ---------------------------------------------------------------------
  // Codec choice (the constructor of the quantizer)
  // ---------------------------------------------------------------------

  /** The quantizer's settings once constructed. */
  datatype Quantizer = Quantizer(
    colorspace: string, metric: Metric, encoder: Codec, decoder: Codec,
    threshold1: real, threshold2: real)

  /** The constructor: the colour-space name is upper-cased; for `RGB` both
      converters are the identity, otherwise they are looked up by name
      (`rgb2<space>`, `<space>2rgb`) among the converters `convert` offers,
      and a missing one raises `AttributeError`. */
  function NewQuantizer(colorspace: string, metric: Metric, convert: map<string, Codec>,
                        threshold1: real, threshold2: real): (r: Result<Quantizer, QuantError>)
    ensures r.Ok? ==> r.value.colorspace == Strings.Upper(colorspace)
    ensures r.Ok? ==> r.value.threshold1 == threshold1 && r.value.threshold2 == threshold2
    ensures r.Ok? ==> forall a, b :: r.value.metric(a, b) == metric(a, b)
    ensures Strings.Upper(colorspace) == "RGB" ==>
              r.Ok? && forall x :: r.value.encoder(x) == x && r.value.decoder(x) == x
    ensures Strings.Upper(colorspace) != "RGB" ==>
              (r.Ok? <==> ("rgb2" + Strings.Lower(Strings.Upper(colorspace)) in convert &&
                           Strings.Lower(Strings.Upper(colorspace)) + "2rgb" in convert))
    ensures r.Ok? && Strings.Upper(colorspace) != "RGB" ==>
              forall x :: r.value.encoder(x) == convert["rgb2" + Strings.Lower(Strings.Upper(colorspace))](x) &&
                          r.value.decoder(x) == convert[Strings.Lower(Strings.Upper(colorspace)) + "2rgb"](x)
    ensures r.Err? ==> r.error == AttributeError
  {
    var cs := Strings.Upper(colorspace);
    if cs == "RGB" then
      Ok(Quantizer(cs, metric, x => x, x => x, threshold1, threshold2))
    else
      var toName := "rgb2" + Strings.Lower(cs);
      var fromName := Strings.Lower(cs) + "2rgb";
      if toName !in convert || fromName !in convert then Err(AttributeError)
      else Ok(Quantizer(cs, metric, convert[toName], convert[fromName], threshold1, threshold2))
  }

  /** With the `RGB` colour space, decoding an encoded colour gives it back. */
  lemma RgbRoundTrip(colorspace: string, metric: Metric, convert: map<string, Codec>,
                     t1: real, t2: real, x: Vec)
    requires Strings.Upper(colorspace) == "RGB"
    ensures NewQuantizer(colorspace, metric, convert, t1, t2).Ok?
    ensures var q := NewQuantizer(colorspace, metric, convert, t1, t2).value;
            q.decoder(q.encoder(x)) == x
  {
  }

  // ---------------------------------------------------------------------
  // Histogram filtering and ordering
  // ---------------------------------------------------------------------

  /** What the image's histogram guarantees: every listed colour occurs at
      least once, no more often than there are pixels, and has the three
      channels the centroid computation reads. */
  predicate HistogramOk(colors: seq<ColorCount>, npixels: nat)
  {
    forall c :: c in colors ==> 0 < c.count <= npixels && |c.vec| >= 3
  }

  /** A colour takes part in seeding when its share of the pixels, in
      percent, reaches `t1`. */
  predicate Frequent(c: ColorCount, npixels: nat, t1: real)
    requires npixels > 0
  {
    (c.count as real) / (npixels as real) * 100.0 >= t1
  }

  /** The histogram entries that pass the frequency threshold, in histogram order. */
  function FrequentColors(colors: seq<ColorCount>, npixels: nat, t1: real): (r: seq<ColorCount>)
    requires colors == [] || npixels > 0
    ensures forall c :: c in r <==> c in colors && Frequent(c, npixels, t1)
    ensures multiset(r) <= multiset(colors)
  {
    if colors == [] then []
    else
      assert colors == [colors[0]] + colors[1..];
      (if Frequent(colors[0], npixels, t1) then [colors[0]] else [])
      + FrequentColors(colors[1..], npixels, t1)
  }

  /** Counts never increase along the sequence. */
  predicate NonIncreasing(s: seq<ColorCount>)
  {
    forall i, j :: 0 <= i < j < |s| ==> s[i].count >= s[j].count
  }

  lemma AppendSmaller(a: seq<ColorCount>, z: ColorCount)
    requires NonIncreasing(a)
    requires forall y :: y in a ==> y.count >= z.count
    ensures NonIncreasing(a + [z])
  {
    forall i, j | 0 <= i < j < |a| + 1 ensures (a + [z])[i].count >= (a + [z])[j].count {
      if j == |a| {
        assert (a + [z])[i] == a[i];
        assert a[i] in a;
      }
    }
  }

  /** Every entry of `init` plus an `x` above `last` counts at least as
      much as `last`. */
  lemma InsertedAbove(init: seq<ColorCount>, last: ColorCount, x: ColorCount, r: seq<ColorCount>)
    requires NonIncreasing(init + [last]) && x.count > last.count
    requires multiset(r) == multiset(init) + multiset{x}
    ensures forall y :: y in r ==> y.count >= last.count
  {
    forall y | y in r ensures y.count >= last.count {
      assert y in multiset(r);
      if y != x {
        assert y in init;
        var i :| 0 <= i < |init| && init[i] == y;
        assert (init + [last])[i] == y && (init + [last])[|init|] == last;
      }
    }
  }

  /** Inserts `x` after every entry whose count is at least its own. */
  function InsertByCount(s: seq<ColorCount>, x: ColorCount): (r: seq<ColorCount>)
    requires NonIncreasing(s)
    ensures NonIncreasing(r)
    ensures multiset(r) == multiset(s) + multiset{x}
  {
    if s == [] then [x]
    else if s[|s| - 1].count >= x.count then s + [x]
    else
      var init := s[..|s| - 1];
      var last := s[|s| - 1];
      assert s == init + [last];
      var r' := InsertByCount(init, x);
      InsertedAbove(init, last, x, r');
      AppendSmaller(r', last);
      r' + [last]
  }

  /** `sorted(colors, key=lambda c: -c.count)`: a stable insertion sort by
      descending count. */
  function SortByCount(s: seq<ColorCount>): (r: seq<ColorCount>)
    ensures NonIncreasing(r)
    ensures multiset(r) == multiset(s)
  {
    if s == [] then []
    else
      assert s == s[..|s| - 1] + [s[|s| - 1]];
      InsertByCount(SortByCount(s[..|s| - 1]), s[|s| - 1])
  }

  /** The colours that drive seeding, most frequent first. */
  function SeedOrder(colors: seq<ColorCount>, npixels: nat, t1: real): seq<ColorCount>
    requires colors == [] || npixels > 0
  {
    SortByCount(FrequentColors(colors, npixels, t1))
  }

  /** Only colours at or above the frequency threshold are seeded, each
      exactly as often as it is in the histogram, and most frequent first. */
  lemma SeedOrderProperties(colors: seq<ColorCount>, npixels: nat, t1: real)
    requires colors == [] || npixels > 0
    ensures var cs := SeedOrder(colors, npixels, t1);
            NonIncreasing(cs) &&
            (forall c :: c in cs <==> c in colors && Frequent(c, npixels, t1)) &&
            multiset(cs) <= multiset(colors)
  {
    var f := FrequentColors(colors, npixels, t1);
    var cs := SortByCount(f);
    forall c ensures c in cs <==> c in f {
      assert c in cs <==> c in multiset(cs);
      assert c in f <==> c in multiset(f);
    }
  }

  // ---------------------------------------------------------------------
  // Seeding
  // ---------------------------------------------------------------------

  /** What decides whether two colours are merged into one seed group:
      the metric, the metric's largest value over the colour space's range,
      and the relative-distance threshold `t2` in percent. */
  datatype Closeness = Closeness(metric: Metric, maxDiff: real, t2: real) {
    predicate Close(p: Vec, q: Vec)
      requires maxDiff != 0.0
    {
      metric(p, q) / maxDiff * 100.0 <= t2
    }
  }

  /** The entries of `s` close to `p`, in order. */
  function Near(k: Closeness, p: Vec, s: seq<ColorCount>): (r: seq<ColorCount>)
    requires k.maxDiff != 0.0
    ensures |r| <= |s|
  {
    if s == [] then []
    else (if k.Close(p, s[0].vec) then [s[0]] else []) + Near(k, p, s[1..])
  }

  /** The entries of `s` not close to `p`, in order. */
  function Far(k: Closeness, p: Vec, s: seq<ColorCount>): (r: seq<ColorCount>)
    requires k.maxDiff != 0.0
    ensures |r| <= |s|
  {
    if s == [] then []
    else (if k.Close(p, s[0].vec) then [] else [s[0]]) + Far(k, p, s[1..])
  }

  /** The group gathered around `p` holds colours of `s` close to `p`;
      what is left holds the others. */
  lemma {:induction false} NearFarMembers(k: Closeness, p: Vec, s: seq<ColorCount>)
    requires k.maxDiff != 0.0
    ensures forall x :: x in Near(k, p, s) ==> x in s && k.Close(p, x.vec)
    ensures forall x :: x in Far(k, p, s) ==> x in s && !k.Close(p, x.vec)
  {
    if s != [] {
      NearFarMembers(k, p, s[1..]);
    }
  }

  lemma {:induction false} NearAppend(k: Closeness, p: Vec, a: seq<ColorCount>, b: seq<ColorCount>)
    requires k.maxDiff != 0.0
    ensures Near(k, p, a + b) == Near(k, p, a) + Near(k, p, b)
  {
    if a != [] {
      assert (a + b)[0] == a[0];
      assert (a + b)[1..] == a[1..] + b;
      NearAppend(k, p, a[1..], b);
    } else {
      assert a + b == b;
    }
  }

  /** Every entry is either near `p` or far from it. */
  lemma {:induction false} NearFarPartition(k: Closeness, p: Vec, s: seq<ColorCount>)
    requires k.maxDiff != 0.0
    ensures multiset(Near(k, p, s)) + multiset(Far(k, p, s)) == multiset(s)
  {
    if s != [] {
      NearFarPartition(k, p, s[1..]);
      var near, far := Near(k, p, s[1..]), Far(k, p, s[1..]);
      assert s == [s[0]] + s[1..];
      assert multiset(s) == multiset{s[0]} + multiset(s[1..]);
      if k.Close(p, s[0].vec) {
        assert multiset([s[0]] + near) == multiset{s[0]} + multiset(near);
        assert Far(k, p, s) == [] + far;
      } else {
        assert multiset([s[0]] + far) == multiset{s[0]} + multiset(far);
        assert Near(k, p, s) == [] + near;
      }
    }
  }

  /** Every entry has the three channels the centroid reads. */
  predicate Channels3(s: seq<ColorCount>)
  {
    forall c :: c in s ==> |c.vec| >= 3
  }

  /** Sum of channel `ch` over the entries. */
  function ChannelSum(g: seq<ColorCount>, ch: nat): real
    requires forall c :: c in g ==> |c.vec| > ch
  {
    if g == [] then 0.0 else g[0].vec[ch] + ChannelSum(g[1..], ch)
  }

  /** The unweighted per-channel mean of the group, over three channels. */
  function Centroid(g: seq<ColorCount>): (r: Vec)
    requires g != [] && Channels3(g)
    ensures |r| == 3
  {
    var n := |g| as real;
    [ChannelSum(g, 0) / n, ChannelSum(g, 1) / n, ChannelSum(g, 2) / n]
  }

  lemma {:induction false} ChannelSumBounds(g: seq<ColorCount>, ch: nat, lo: real, hi: real)
    requires forall c :: c in g ==> |c.vec| > ch && lo <= c.vec[ch] <= hi
    ensures (|g| as real) * lo <= ChannelSum(g, ch) <= (|g| as real) * hi
  {
    if g != [] {
      ChannelSumBounds(g[1..], ch, lo, hi);
      assert g[0] in g;
      SumStep(g[0].vec[ch], ChannelSum(g[1..], ch), |g[1..]|, lo, hi);
    }
  }

  /** Adding one value within [lo, hi] to a sum of `m` such values. */
  lemma SumStep(x: real, rest: real, m: nat, lo: real, hi: real)
    requires lo <= x <= hi
    requires (m as real) * lo <= rest <= (m as real) * hi
    ensures ((m + 1) as real) * lo <= x + rest <= ((m + 1) as real) * hi
  {
    assert ((m + 1) as real) * lo == (m as real) * lo + lo;
    assert ((m + 1) as real) * hi == (m as real) * hi + hi;
  }

  /** A mean of `n` values within [lo, hi] is within [lo, hi]. */
  lemma MeanBounds(s: real, n: real, lo: real, hi: real)
    requires n > 0.0 && n * lo <= s <= n * hi
    ensures lo <= s / n <= hi
  {
    assert s / n * n == s;
  }

  /** Each channel of a centroid lies between the smallest and the largest
      value of that channel in its group; in particular a group of equal
      colours has that colour as its centroid. */
  lemma CentroidWithin(g: seq<ColorCount>, ch: nat, lo: real, hi: real)
    requires g != [] && Channels3(g) && ch < 3
    requires forall c :: c in g ==> lo <= c.vec[ch] <= hi
    ensures lo <= Centroid(g)[ch] <= hi
  {
    ChannelSumBounds(g, ch, lo, hi);
    MeanBounds(ChannelSum(g, ch), |g| as real, lo, hi);
  }

  lemma CentroidOfUniform(g: seq<ColorCount>, v: Vec)
    requires g != [] && |v| >= 3
    requires forall c :: c in g ==> c.vec == v
    ensures Centroid(g) == v[..3]
  {
    forall ch | 0 <= ch < 3 ensures Centroid(g)[ch] == v[ch] {
      CentroidWithin(g, ch, v[ch], v[ch]);
    }
  }

  /** A seed cluster: the pivot colour, the candidate group gathered around
      it (in list order), and the group's centroid. */
  datatype Seed = Seed(pivot: ColorCount, members: seq<ColorCount>, centroid: Vec)

  /** The greedy seeding over the ordered frequent colours `cs`: the first
      colour is the pivot; every colour still unprocessed that is close to it
      (the pivot included, when it is close to itself) forms its group;
      the group and the pivot are then processed, and seeding continues on
      what is left. An empty group is the division by zero of the centroid. */
  function Seeding(k: Closeness, cs: seq<ColorCount>): (r: Result<seq<Seed>, QuantError>)
    requires k.maxDiff != 0.0 && Channels3(cs)
    ensures r.Err? ==> r.error == ZeroDivisionError
    ensures r.Ok? ==> |r.value| <= |cs| && (cs != [] ==> |r.value| >= 1)
    ensures r.Ok? ==> forall i :: 0 <= i < |r.value| ==>
              r.value[i].pivot in cs && r.value[i].members != [] &&
              (forall x :: x in r.value[i].members ==> x in cs) &&
              r.value[i].centroid == Centroid(r.value[i].members)
    decreases |cs|
  {
    if cs == [] then Ok([])
    else
      var p := cs[0];
      NearFarMembers(k, p.vec, cs);
      NearFarMembers(k, p.vec, cs[1..]);
      var group := Near(k, p.vec, cs);
      if group == [] then Err(ZeroDivisionError)
      else
        var rest := Far(k, p.vec, cs[1..]);
        match Seeding(k, rest)
        case Err(e) => Err(e)
        case Ok(more) => Ok([Seed(p, group, Centroid(group))] + more)
  }

  /** The metric's guarantee that a colour is at distance zero from itself. */
  ghost predicate ZeroOnEqual(m: Metric)
  {
    forall v :: m(v, v) == 0.0
  }

  /** The metric's guarantee that distances are never negative. */
  ghost predicate NonNegative(m: Metric)
  {
    forall a, b :: m(a, b) >= 0.0
  }

  /** All the seeds' groups, one after the other. */
  function AllMembers(seeds: seq<Seed>): seq<ColorCount>
  {
    if seeds == [] then [] else seeds[0].members + AllMembers(seeds[1..])
  }

  /** With a threshold `t2 >= 0` and a metric that is zero on equal colours,
      every pivot lies in its own group, so no group is empty and seeding
      never divides by zero. */
  lemma {:induction false} SeedingSucceeds(k: Closeness, cs: seq<ColorCount>)
    requires k.maxDiff != 0.0 && Channels3(cs)
    requires ZeroOnEqual(k.metric) && k.t2 >= 0.0
    ensures Seeding(k, cs).Ok?
    ensures forall i :: 0 <= i < |Seeding(k, cs).value| ==>
              Seeding(k, cs).value[i].members[0] == Seeding(k, cs).value[i].pivot
    decreases |cs|
  {
    if cs != [] {
      var p := cs[0];
      assert k.metric(p.vec, p.vec) == 0.0;
      assert k.Close(p.vec, p.vec);
      assert Near(k, p.vec, cs)[0] == p;
      NearFarMembers(k, p.vec, cs[1..]);
      SeedingSucceeds(k, Far(k, p.vec, cs[1..]));
    }
  }

  /** With a non-negative metric over a range of positive extent, a negative
      `t2` leaves the first pivot's group empty: seeding any frequent colour
      then raises `ZeroDivisionError`. */
  lemma SeedingFailsOnNegativeThreshold(k: Closeness, cs: seq<ColorCount>)
    requires k.maxDiff > 0.0 && Channels3(cs) && cs != []
    requires NonNegative(k.metric) && k.t2 < 0.0
    ensures Seeding(k, cs) == Err(ZeroDivisionError)
  {
    var p := cs[0];
    forall v ensures !k.Close(p.vec, v) {
      var d := k.metric(p.vec, v);
      assert d >= 0.0;
      assert d / k.maxDiff >= 0.0;
    }
    NearOfNoneClose(k, p.vec, cs);
  }

  lemma {:induction false} NearOfNoneClose(k: Closeness, p: Vec, s: seq<ColorCount>)
    requires k.maxDiff != 0.0
    requires forall v :: !k.Close(p, v)
    ensures Near(k, p, s) == []
  {
    if s != [] {
      NearOfNoneClose(k, p, s[1..]);
    }
  }

  /** One step of seeding: the first seed is the first colour with its
      group, and the rest is seeding what is far from it. */
  lemma SeedingStep(k: Closeness, cs: seq<ColorCount>)
    requires k.maxDiff != 0.0 && Channels3(cs) && cs != []
    requires Seeding(k, cs).Ok?
    ensures Channels3(Near(k, cs[0].vec, cs)) && Near(k, cs[0].vec, cs) != []
    ensures Channels3(Far(k, cs[0].vec, cs[1..]))
    ensures Seeding(k, Far(k, cs[0].vec, cs[1..])).Ok?
    ensures Seeding(k, cs).value ==
              [Seed(cs[0], Near(k, cs[0].vec, cs), Centroid(Near(k, cs[0].vec, cs)))]
              + Seeding(k, Far(k, cs[0].vec, cs[1..])).value
  {
    NearFarMembers(k, cs[0].vec, cs);
    NearFarMembers(k, cs[0].vec, cs[1..]);
  }

  /** When every pivot is close to itself, each frequent colour is
      processed exactly once: the groups together hold each colour of `cs`
      exactly as often as `cs` does. */
  lemma {:induction false} SeedingExactlyOnce(k: Closeness, cs: seq<ColorCount>)
    requires k.maxDiff != 0.0 && Channels3(cs)
    requires ZeroOnEqual(k.metric) && k.t2 >= 0.0
    ensures Seeding(k, cs).Ok?
    ensures multiset(AllMembers(Seeding(k, cs).value)) == multiset(cs)
    decreases |cs|
  {
    SeedingSucceeds(k, cs);
    if cs != [] {
      var p := cs[0];
      var rest := cs[1..];
      var far := Far(k, p.vec, rest);
      SeedingStep(k, cs);
      SeedingExactlyOnce(k, far);
      var seeds := Seeding(k, cs).value;
      var more := Seeding(k, far).value;
      assert seeds[0].members == Near(k, p.vec, cs) && seeds[1..] == more;
      assert AllMembers(seeds) == seeds[0].members + AllMembers(more);
      GroupOfPivot(k, cs);
      NearFarPartition(k, p.vec, rest);
      assert multiset(cs) == multiset{p} + multiset(rest) by { assert cs == [p] + rest; }
    }
  }

  /** The first pivot's group is the pivot followed by the other colours
      close to it. */
  lemma GroupOfPivot(k: Closeness, cs: seq<ColorCount>)
    requires k.maxDiff != 0.0 && cs != []
    requires ZeroOnEqual(k.metric) && k.t2 >= 0.0
    ensures Near(k, cs[0].vec, cs) == [cs[0]] + Near(k, cs[0].vec, cs[1..])
  {
    var d := k.metric(cs[0].vec, cs[0].vec);
    assert d == 0.0;
    assert d / k.maxDiff * 100.0 == 0.0;
    assert k.Close(cs[0].vec, cs[0].vec);
  }

  /** In a sequence ordered by non-increasing count, no entry after the
      first counts more than the first. */
  lemma HeadBounds(s: seq<ColorCount>)
    requires s != [] && NonIncreasing(s)
    ensures forall x :: x in s[1..] ==> x.count <= s[0].count
  {
    forall x | x in s[1..]
      ensures x.count <= s[0].count
    {
      var i :| 0 <= i < |s[1..]| && s[1..][i] == x;
      assert s[i + 1] == x;
    }
  }

  /** Over colours ordered by non-increasing count, the entries far from a
      pivot keep that order. */
  lemma {:induction false} FarNonIncreasing(k: Closeness, p: Vec, s: seq<ColorCount>)
    requires k.maxDiff != 0.0 && NonIncreasing(s)
    ensures NonIncreasing(Far(k, p, s))
  {
    if s != [] {
      FarNonIncreasing(k, p, s[1..]);
      NearFarMembers(k, p, s[1..]);
      HeadBounds(s);
      var r := Far(k, p, s[1..]);
      if !k.Close(p, s[0].vec) {
        assert forall x :: x in r ==> x.count <= s[0].count;
        assert Far(k, p, s) == [s[0]] + r;
        PrependLarger(s[0], r);
      }
    }
  }

  /** A head counting at least as much as every entry of an ordered tail
      keeps the order. */
  lemma PrependLarger(a: ColorCount, r: seq<ColorCount>)
    requires NonIncreasing(r) && forall x :: x in r ==> x.count <= a.count
    ensures NonIncreasing([a] + r)
  {
    forall i, j | 0 <= i < j < |r| + 1
      ensures ([a] + r)[i].count >= ([a] + r)[j].count
    {
      assert ([a] + r)[j] == r[j - 1];
      if i == 0 {
        assert r[j - 1] in r;
      }
    }
  }

  /** The seeds' pivots come in non-increasing count order. */
  predicate PivotsNonIncreasing(seeds: seq<Seed>)
  {
    forall i, j :: 0 <= i < j < |seeds| ==> seeds[i].pivot.count >= seeds[j].pivot.count
  }

  /** A seed whose pivot counts at least as much as every later pivot
      keeps the order. */
  lemma PivotsPrepend(s0: Seed, more: seq<Seed>)
    requires PivotsNonIncreasing(more)
    requires forall j :: 0 <= j < |more| ==> more[j].pivot.count <= s0.pivot.count
    ensures PivotsNonIncreasing([s0] + more)
  {
    forall i, j | 0 <= i < j < |more| + 1
      ensures ([s0] + more)[i].pivot.count >= ([s0] + more)[j].pivot.count
    {
      assert ([s0] + more)[j] == more[j - 1];
      if i > 0 {
        assert ([s0] + more)[i] == more[i - 1];
      }
    }
  }

  /** Pivots are taken most frequent first. */
  lemma {:induction false} SeedingPivotsNonIncreasing(k: Closeness, cs: seq<ColorCount>)
    requires k.maxDiff != 0.0 && Channels3(cs) && NonIncreasing(cs)
    requires Seeding(k, cs).Ok?
    ensures PivotsNonIncreasing(Seeding(k, cs).value)
    decreases |cs|
  {
    if cs != [] {
      var p := cs[0];
      var rest := Far(k, p.vec, cs[1..]);
      SeedingStep(k, cs);
      HeadBounds(cs);
      NearFarMembers(k, p.vec, cs[1..]);
      FarNonIncreasing(k, p.vec, cs[1..]);
      SeedingPivotsNonIncreasing(k, rest);
      var more := Seeding(k, rest).value;
      forall j | 0 <= j < |more|
        ensures more[j].pivot.count <= p.count
      {
        assert more[j].pivot in rest;
      }
      PivotsPrepend(Seed(p, Near(k, p.vec, cs), Centroid(Near(k, p.vec, cs))), more);
    }
  }

  // ---------------------------------------------------------------------
  // The seeding loop over the colour list, nulled in place
  // ---------------------------------------------------------------------

  /** The colours of the list not yet processed (not yet `None`), in order. */
  function Somes(s: seq<Option<ColorCount>>): seq<ColorCount>
  {
    if s == [] then [] else (if s[0].Some? then [s[0].value] else []) + Somes(s[1..])
  }

  lemma {:induction false} SomesAppend(a: seq<Option<ColorCount>>, b: seq<Option<ColorCount>>)
    ensures Somes(a + b) == Somes(a) + Somes(b)
  {
    if a == [] {
      assert a + b == b;
    } else {
      assert (a + b)[0] == a[0];
      assert (a + b)[1..] == a[1..] + b;
      SomesAppend(a[1..], b);
    }
  }

  lemma {:induction false} SomesAllNone(s: seq<Option<ColorCount>>)
    requires forall j :: 0 <= j < |s| ==> s[j].None?
    ensures Somes(s) == []
  {
    if s != [] {
      SomesAllNone(s[1..]);
    }
  }

  lemma {:induction false} SomesAllSome(s: seq<Option<ColorCount>>, cs: seq<ColorCount>)
    requires |s| == |cs| && forall j :: 0 <= j < |s| ==> s[j] == Some(cs[j])
    ensures Somes(s) == cs
  {
    if s != [] {
      SomesAllSome(s[1..], cs[1..]);
    }
  }

  /** What the scan around pivot `p` leaves in a slot: a colour close to the
      pivot is marked processed. */
  function Processed(k: Closeness, p: Vec, o: Option<ColorCount>): Option<ColorCount>
    requires k.maxDiff != 0.0
  {
    if o.Some? && k.Close(p, o.value.vec) then None else o
  }

  /** Nulling the colours close to `p` leaves exactly those far from it. */
  lemma {:induction false} NullOutFar(k: Closeness, p: Vec, before: seq<Option<ColorCount>>, after: seq<Option<ColorCount>>)
    requires k.maxDiff != 0.0 && |before| == |after|
    requires forall j :: 0 <= j < |after| ==> after[j] == Processed(k, p, before[j])
    ensures Somes(after) == Far(k, p, Somes(before))
  {
    if before != [] {
      NullOutFar(k, p, before[1..], after[1..]);
      var b0 := if before[0].Some? then [before[0].value] else [];
      assert Somes(before) == b0 + Somes(before[1..]);
      FarAppend(k, p, b0, Somes(before[1..]));
    }
  }

  lemma {:induction false} FarAppend(k: Closeness, p: Vec, a: seq<ColorCount>, b: seq<ColorCount>)
    requires k.maxDiff != 0.0
    ensures Far(k, p, a + b) == Far(k, p, a) + Far(k, p, b)
  {
    if a == [] {
      assert a + b == b;
    } else {
      assert (a + b)[0] == a[0];
      assert (a + b)[1..] == a[1..] + b;
      FarAppend(k, p, a[1..], b);
    }
  }

  /** Extending the scanned prefix by one slot extends the candidates by
      that slot's colour exactly when it is unprocessed and close. */
  lemma NearSomesSnoc(k: Closeness, p: Vec, s: seq<Option<ColorCount>>, j: nat)
    requires k.maxDiff != 0.0 && j < |s|
    ensures Near(k, p, Somes(s[..j + 1])) ==
            Near(k, p, Somes(s[..j])) + (if s[j].Some? && k.Close(p, s[j].value.vec) then [s[j].value] else [])
  {
    assert s[..j + 1] == s[..j] + [s[j]];
    SomesAppend(s[..j], [s[j]]);
    NearAppend(k, p, Somes(s[..j]), Somes([s[j]]));
  }

  /** Seeds already emitted, in front of the outcome of seeding the rest. */
  function Prepend(done: seq<Seed>, r: Result<seq<Seed>, QuantError>): Result<seq<Seed>, QuantError>
  {
    match r
    case Ok(more) => Ok(done + more)
    case Err(e) => Err(e)
  }

  /** The whole of the seeding heuristic: a colour space without a declared
      range raises `ValueError`; the frequent colours are ordered by count;
      a range whose extent under the metric is zero makes the first distance
      test divide by zero; otherwise the greedy seeding runs. */
  function SeedClusters(q: Quantizer, ranges: map<string, (Vec, Vec)>,
                        colors: seq<ColorCount>, npixels: nat): Result<seq<Seed>, QuantError>
    requires HistogramOk(colors, npixels)
  {
    if q.colorspace !in ranges then Err(ValueError)
    else
      var maxDiff := q.metric(ranges[q.colorspace].0, ranges[q.colorspace].1);
      assert colors == [] || colors[0] in colors;
      SeedOrderProperties(colors, npixels, q.threshold1);
      var cs := SeedOrder(colors, npixels, q.threshold1);
      if cs == [] then Ok([])
      else if maxDiff == 0.0 then Err(ZeroDivisionError)
      else Seeding(Closeness(q.metric, maxDiff, q.threshold2), cs)
  }

  /** The seeding as a whole, for a metric that is zero on equal colours,
      `t2 >= 0` and a range of non-zero extent: it succeeds; the groups
      hold every frequent colour exactly as often as the histogram does;
      there are at most as many seeds as frequent colours and at least one
      when some colour is frequent; pivots come most frequent first. */
  lemma SeedClustersSound(q: Quantizer, ranges: map<string, (Vec, Vec)>,
                          colors: seq<ColorCount>, npixels: nat)
    requires HistogramOk(colors, npixels) && q.colorspace in ranges
    requires ZeroOnEqual(q.metric) && q.threshold2 >= 0.0
    requires q.metric(ranges[q.colorspace].0, ranges[q.colorspace].1) != 0.0
    ensures SeedClusters(q, ranges, colors, npixels).Ok?
    ensures (colors == [] || npixels > 0) &&
            var seeds := SeedClusters(q, ranges, colors, npixels).value;
            var frequent := FrequentColors(colors, npixels, q.threshold1);
            multiset(AllMembers(seeds)) == multiset(frequent) &&
            |seeds| <= |frequent| && (frequent != [] ==> |seeds| >= 1) &&
            PivotsNonIncreasing(seeds)
  {
    assert colors == [] || colors[0] in colors;
    var frequent := FrequentColors(colors, npixels, q.threshold1);
    var cs := SeedOrder(colors, npixels, q.threshold1);
    SeedOrderProperties(colors, npixels, q.threshold1);
    SeedOrderChannels(colors, npixels, q.threshold1);
    assert |cs| == |multiset(cs)| == |multiset(frequent)| == |frequent|;
    var k := Closeness(q.metric, q.metric(ranges[q.colorspace].0, ranges[q.colorspace].1), q.threshold2);
    SeedingExactlyOnce(k, cs);
    SeedingPivotsNonIncreasing(k, cs);
  }

  /** The centroid loop: channel `ch` of the centroid is the channel's sum
      over the candidates divided by their number. */
  method ComputeCentroid(candidates: seq<ColorCount>) returns (centroid: Vec)
    requires candidates != [] && Channels3(candidates)
    ensures centroid == Centroid(candidates)
  {
    var acc := new real[3](_ => 0.0);
    var n := |candidates| as real;
    for ch := 0 to 3
      invariant forall c :: 0 <= c < ch ==> acc[c] == ChannelSum(candidates, c) / n
    {
      acc[ch] := ChannelSum(candidates, ch) / n;
    }
    centroid := acc[..];
  }

  /** The scan around the pivot in slot `i`: every unprocessed colour close
      to the pivot joins the candidates, in list order, and every one of
      them but the pivot itself is marked processed. */
  method GatherCandidates(slots: array<Option<ColorCount>>, i: nat, k: Closeness)
    returns (candidates: seq<ColorCount>)
    requires i < slots.Length && slots[i].Some? && k.maxDiff != 0.0
    modifies slots
    ensures candidates == Near(k, old(slots[i]).value.vec, Somes(old(slots[..])))
    ensures slots[i] == old(slots[i])
    ensures forall j :: 0 <= j < slots.Length && j != i ==>
              slots[j] == Processed(k, old(slots[i]).value.vec, old(slots[j]))
  {
    var p := slots[i].value;
    ghost var before := slots[..];
    candidates := [];
    var j := 0;
    while j < slots.Length
      invariant 0 <= j <= slots.Length
      invariant candidates == Near(k, p.vec, Somes(before[..j]))
      invariant forall m :: j <= m < slots.Length ==> slots[m] == before[m]
      invariant forall m :: 0 <= m < j && m != i ==> slots[m] == Processed(k, p.vec, before[m])
      invariant slots[i] == before[i]
    {
      NearSomesSnoc(k, p.vec, before, j);
      assert slots[j] == before[j];
      if slots[j].Some? {
        var c := slots[j].value;
        if k.Close(p.vec, c.vec) {
          candidates := candidates + [c];
          if j != i {
            slots[j] := None;
          }
        }
      }
      j := j + 1;
    }
    assert before[..slots.Length] == before;
  }

  /** Seeding a non-empty list: an empty first group raises, otherwise the
      first seed is followed by the seeding of what is far from its pivot. */
  lemma SeedingCons(k: Closeness, cur: seq<ColorCount>)
    requires k.maxDiff != 0.0 && Channels3(cur) && cur != []
    ensures Channels3(Near(k, cur[0].vec, cur)) && Channels3(Far(k, cur[0].vec, cur[1..]))
    ensures Seeding(k, cur) ==
              if Near(k, cur[0].vec, cur) == [] then Err(ZeroDivisionError)
              else Prepend([Seed(cur[0], Near(k, cur[0].vec, cur), Centroid(Near(k, cur[0].vec, cur)))],
                           Seeding(k, Far(k, cur[0].vec, cur[1..])))
  {
    NearFarMembers(k, cur[0].vec, cur);
    NearFarMembers(k, cur[0].vec, cur[1..]);
  }

  lemma PrependNil(r: Result<seq<Seed>, QuantError>)
    ensures Prepend([], r) == r
  {
    if r.Ok? {
      assert [] + r.value == r.value;
    }
  }

  lemma PrependPrepend(a: seq<Seed>, b: seq<Seed>, r: Result<seq<Seed>, QuantError>)
    ensures Prepend(a, Prepend(b, r)) == Prepend(a + b, r)
  {
    if r.Ok? {
      assert a + (b + r.value) == (a + b) + r.value;
    }
  }

  /** One round of the outer loop on the colour list: the scan around the
      pivot in slot `i` saw exactly the unprocessed colours from `i` on,
      pivot first, and left unprocessed exactly those far from the pivot. */
  lemma ScanRound(k: Closeness, before: seq<Option<ColorCount>>, after: seq<Option<ColorCount>>,
                  i: nat, p: ColorCount)
    requires k.maxDiff != 0.0 && i < |before| == |after|
    requires forall j :: 0 <= j < i ==> before[j].None?
    requires before[i] == Some(p) && after[i] == None
    requires forall j :: 0 <= j < |after| && j != i ==> after[j] == Processed(k, p.vec, before[j])
    ensures Somes(before[i..]) == [p] + Somes(before[i + 1..])
    ensures Somes(before) == Somes(before[i..])
    ensures Somes(after[i + 1..]) == Far(k, p.vec, Somes(before[i + 1..]))
    ensures forall j :: 0 <= j <= i ==> after[j].None?
  {
    assert before[i..] == [before[i]] + before[i + 1..];
    assert before == before[..i] + before[i..];
    SomesAppend(before[..i], before[i..]);
    SomesAllNone(before[..i]);
    NullOutFar(k, p.vec, before[i + 1..], after[i + 1..]);
  }

  lemma SomesSkipNone(s: seq<Option<ColorCount>>, i: nat)
    requires i < |s| && s[i].None?
    ensures Somes(s[i..]) == Somes(s[i + 1..])
  {
    assert s[i..] == [s[i]] + s[i + 1..];
  }

  /** The ordered frequent colours all have three channels. */
  lemma SeedOrderChannels(colors: seq<ColorCount>, npixels: nat, t1: real)
    requires HistogramOk(colors, npixels)
    ensures colors == [] || npixels > 0
    ensures Channels3(SeedOrder(colors, npixels, t1))
  {
    assert colors == [] || colors[0] in colors;
    SeedOrderProperties(colors, npixels, t1);
  }

  /** The outcome of seeding the unprocessed colours `rest`. */
  function SeedRest(k: Closeness, rest: seq<ColorCount>): Result<seq<Seed>, QuantError>
    requires k.maxDiff != 0.0 && Channels3(rest)
  {
    if rest == [] then Ok([]) else Seeding(k, rest)
  }

  /** Every slot before `i` is processed. */
  predicate Cleared(slots: array<Option<ColorCount>>, i: nat)
    reads slots
  {
    forall j :: 0 <= j < i && j < slots.Length ==> slots[j].None?
  }

  /** One turn of the outer loop on the colour list, at an unprocessed slot
      `i`: gather the candidates around the pivot, mark them and the pivot
      processed, and build the seed; no seed when the group is empty. */
  method SeedRound(slots: array<Option<ColorCount>>, i: nat, k: Closeness, ghost rest: seq<ColorCount>)
    returns (seed: Option<Seed>, ghost rest': seq<ColorCount>)
    requires k.maxDiff != 0.0 && i < slots.Length && slots[i].Some?
    requires Cleared(slots, i)
    requires rest == Somes(slots[i..]) && Channels3(rest)
    modifies slots
    ensures Cleared(slots, i + 1)
    ensures rest' == Somes(slots[i + 1..]) && Channels3(rest')
    ensures SeedRest(k, rest) ==
              if seed.None? then Err(ZeroDivisionError) else Prepend([seed.value], SeedRest(k, rest'))
  {
    var p := slots[i].value;
    ghost var before := slots[..];
    assert before[i..] == slots[i..];
    var candidates := GatherCandidates(slots, i, k);
    slots[i] := None;
    ScanRound(k, before, slots[..], i, p);
    assert Cleared(slots, i + 1) by {
      forall j | 0 <= j < i + 1 ensures slots[j].None? {
        assert slots[..][j] == slots[j];
      }
    }
    assert slots[i + 1..] == slots[..][i + 1..];
    assert rest[0] == p && candidates == Near(k, p.vec, rest);
    SeedingCons(k, rest);
    rest' := Far(k, p.vec, rest[1..]);
    if candidates == [] {
      return None, rest';
    }
    var centroid := ComputeCentroid(candidates);
    seed := Some(Seed(p, candidates, centroid));
  }

  /** The loops of `choose_clusters`: the colour list is an array whose
      processed entries are overwritten with `None`; the outer loop emits
      one seed per pivot still present. */
  method SeedLoop(cs: seq<ColorCount>, k: Closeness) returns (r: Result<seq<Seed>, QuantError>)
    requires k.maxDiff != 0.0 && Channels3(cs) && cs != []
    ensures r == SeedRest(k, cs)
  {
    var n := |cs|;
    ghost var spec := SeedRest(k, cs);
    var slots := new Option<ColorCount>[n](j requires 0 <= j < n => Some(cs[j]));
    assert slots[0..] == slots[..];
    SomesAllSome(slots[..], cs);
    ghost var rest := cs;
    var clusters: seq<Seed> := [];
    PrependNil(spec);
    var i := 0;
    while i < n
      invariant 0 <= i <= n && slots.Length == n
      invariant Cleared(slots, i)
      invariant rest == Somes(slots[i..]) && Channels3(rest)
      invariant spec == Prepend(clusters, SeedRest(k, rest))
    {
      if slots[i].None? {
        SomesSkipNone(slots[..], i);
        assert Cleared(slots, i + 1);
        i := i + 1;
        continue;
      }
      var seed;
      ghost var rest';
      seed, rest' := SeedRound(slots, i, k, rest);
      if seed.None? {
        return Err(ZeroDivisionError);
      }
      PrependPrepend(clusters, [seed.value], SeedRest(k, rest'));
      clusters := clusters + [seed.value];
      rest := rest';
      assert Cleared(slots, i + 1);
      i := i + 1;
    }
    assert slots[n..] == [];
    assert clusters + [] == clusters;
    return Ok(clusters);
  }

  /** `choose_clusters`: look up the colour-space range, filter and order
      the histogram, then seed. */
  method ChooseClusters(q: Quantizer, ranges: map<string, (Vec, Vec)>,
                        colors: seq<ColorCount>, npixels: nat)
    returns (r: Result<seq<Seed>, QuantError>)
    requires HistogramOk(colors, npixels)
    ensures r == SeedClusters(q, ranges, colors, npixels)
  {
    if q.colorspace !in ranges {
      return Err(ValueError);
    }
    var rng := ranges[q.colorspace];
    var maxDiff := q.metric(rng.0, rng.1);
    SeedOrderChannels(colors, npixels, q.threshold1);
    var cs := SeedOrder(colors, npixels, q.threshold1);
    var k := Closeness(q.metric, maxDiff, q.threshold2);
    if cs == [] {
      return Ok([]);
    }
    if maxDiff == 0.0 {
      // the very first distance test, the first pivot against itself, divides by zero
      return Err(ZeroDivisionError);
    }
    r := SeedLoop(cs, k);
  }

  // ---------------------------------------------------------------------
  // Remapping the image onto the clusters
  // ---------------------------------------------------------------------

  /** A refined cluster as the k-means step returns it: a centroid and the
      set of encoded sample colours assigned to it. */
  datatype Cluster = Cluster(centroid: Vec, samples: set<Vec>)

  /** The index of the first cluster, in list order, whose samples hold the
      encoded colour `e`. */
  function FirstOwner(clusters: seq<Cluster>, e: Vec): (r: Option<nat>)
    ensures r.Some? ==> r.value < |clusters| && e in clusters[r.value].samples
    ensures r.Some? ==> forall j :: 0 <= j < r.value ==> e !in clusters[j].samples
    ensures r.None? <==> forall j :: 0 <= j < |clusters| ==> e !in clusters[j].samples
  {
    if clusters == [] then None
    else if e in clusters[0].samples then Some(0)
    else
      match FirstOwner(clusters[1..], e)
      case None => None
      case Some(i) => Some(i + 1)
  }

  /** The clusters together with the converters between RGB and the
      working colour space. */
  datatype Palette = Palette(clusters: seq<Cluster>, encoder: Codec, decoder: Codec) {
    /** The colour a source pixel `s` is repainted with when some cluster
        owns it: the decoded centroid of its first owner. */
    function Resolve(s: Vec): Option<Vec>
    {
      match FirstOwner(clusters, encoder(s))
      case None => None
      case Some(i) => Some(decoder(clusters[i].centroid))
    }
  }

  /** An image: its mode name and a grid of RGB colours addressed
      `pixels[x, y]`, `x` below the width and `y` below the height. */
  class Image {
    const mode: string
    const pixels: array2<Vec>

    /** A blank image of the given mode and size. */
    constructor Create(mode: string, width: nat, height: nat)
      ensures this.mode == mode && fresh(pixels)
      ensures pixels.Length0 == width && pixels.Length1 == height
    {
      this.mode := mode;
      pixels := new Vec[width, height];
    }
  }

  /** The inner loop over the clusters: the first one whose samples hold
      the encoded colour. */
  method FindOwner(clusters: seq<Cluster>, e: Vec) returns (r: Option<nat>)
    ensures r == FirstOwner(clusters, e)
  {
    var i := 0;
    while i < |clusters|
      invariant 0 <= i <= |clusters|
      invariant forall j :: 0 <= j < i ==> e !in clusters[j].samples
    {
      if e in clusters[i].samples {
        return Some(i);
      }
      i := i + 1;
    }
    return None;
  }

  /** What the cache may hold: an owned colour maps to its resolved colour,
      and a colour no cluster owns maps to the value of some owned colour
      also in the cache. */
  ghost predicate CacheSound(pal: Palette, cache: map<Vec, Vec>)
  {
    forall c :: c in cache ==>
      (pal.Resolve(c).Some? ==> cache[c] == pal.Resolve(c).value) &&
      (pal.Resolve(c).None? ==> exists d :: d in cache && pal.Resolve(d).Some? && cache[c] == cache[d])
  }

  /** Recording a colour not yet cached keeps the cache sound, when the
      value is its resolved colour or, for a colour no cluster owns, the
      value of an owned colour already cached. */
  lemma CacheExtend(pal: Palette, memo: map<Vec, Vec>, s: Vec, v: Vec, from: Vec)
    requires CacheSound(pal, memo) && s !in memo
    requires pal.Resolve(s).Some? ==> v == pal.Resolve(s).value
    requires pal.Resolve(s).None? ==> from in memo && pal.Resolve(from).Some? && v == memo[from]
    ensures CacheSound(pal, memo[s := v])
  {
    var m := memo[s := v];
    forall c | c in m
      ensures pal.Resolve(c).None? ==> exists d :: d in m && pal.Resolve(d).Some? && m[c] == m[d]
    {
      if c == s {
        if pal.Resolve(c).None? {
          assert from in m && m[from] == memo[from];
        }
      } else if pal.Resolve(c).None? {
        var d :| d in memo && pal.Resolve(d).Some? && memo[c] == memo[d];
        assert d in m && m[d] == memo[d];
      }
    }
  }

  /** Pixel `(x, y)` comes before pixel `(i, j)` in row-major order. */
  predicate Before(x: int, y: int, i: int, j: int)
  {
    y < j || (y == j && x < i)
  }

  /** The remap's memory between pixels: the cache of resolved colours and
      the value `val` last resolved from a cluster, unset before the first. */
  datatype Memo = Memo(table: map<Vec, Vec>, val: Option<Vec>)

  /** Some pixel of a `width`-wide grid comes before `(x, y)`. */
  predicate Started(width: int, x: int, y: int)
  {
    width > 0 && Before(0, 0, x, y)
  }

  /** Every key of the cache is the colour of a pixel before `(x, y)`,
      the one `where` names. */
  ghost predicate Located(spix: array2<Vec>, table: map<Vec, Vec>, where: map<Vec, (int, int)>, x: int, y: int)
    reads spix
  {
    forall c :: c in table ==>
      c in where && 0 <= where[c].0 < spix.Length0 && 0 <= where[c].1 < spix.Length1 &&
      Before(where[c].0, where[c].1, x, y) && spix[where[c].0, where[c].1] == c
  }

  /** `val` is set once some pixel is done, and then it is the cached value
      of the owned colour `from`; the first pixel, once done, was owned. */
  ghost predicate ValFrom(pal: Palette, spix: array2<Vec>, m: Memo, from: Vec, x: int, y: int)
    reads spix
  {
    (m.val.Some? <==> Started(spix.Length0, x, y)) &&
    (m.val.Some? ==> from in m.table && pal.Resolve(from).Some? && m.val.value == m.table[from]) &&
    (Started(spix.Length0, x, y) ==> spix.Length1 > 0 && pal.Resolve(spix[0, 0]).Some?)
  }

  /** What holds of the memory once every pixel before `(x, y)` is done:
      the cache is sound, its keys are colours met so far, `val` was
      resolved for the cached colour `from`, the clusters were scanned once
      per key, and the first pixel was owned. */
  ghost predicate MemoInv(pal: Palette, spix: array2<Vec>, m: Memo, from: Vec,
                          where: map<Vec, (int, int)>, searches: nat, x: int, y: int)
    reads spix
  {
    CacheSound(pal, m.table) && searches == |m.table| &&
    Located(spix, m.table, where, x, y) && ValFrom(pal, spix, m, from, x, y)
  }

  /** Every pixel before `(x, y)` is painted with the cached value of its
      source colour. */
  ghost predicate PaintedBefore(spix: array2<Vec>, dpix: array2<Vec>, table: map<Vec, Vec>, x: int, y: int)
    reads spix, dpix
    requires dpix.Length0 == spix.Length0 && dpix.Length1 == spix.Length1
  {
    forall i, j :: 0 <= i < spix.Length0 && 0 <= j < spix.Length1 && Before(i, j, x, y) ==>
      spix[i, j] in table && dpix[i, j] == table[spix[i, j]]
  }

  /** The end of a row is the start of the next. */
  lemma RowDone(pal: Palette, spix: array2<Vec>, dpix: array2<Vec>, m: Memo, from: Vec,
                where: map<Vec, (int, int)>, searches: nat, y: int)
    requires dpix.Length0 == spix.Length0 && dpix.Length1 == spix.Length1
    requires MemoInv(pal, spix, m, from, where, searches, spix.Length0, y)
    requires PaintedBefore(spix, dpix, m.table, spix.Length0, y)
    ensures MemoInv(pal, spix, m, from, where, searches, 0, y + 1)
    ensures PaintedBefore(spix, dpix, m.table, 0, y + 1)
  {
  }

  /** What looking up colour `s` leaves in the memory: a hit changes
      nothing; a miss records `s` with the new `val`; the cache stays sound
      and `val` is the cached value of the owned colour `from'`. */
  ghost predicate Looked(pal: Palette, m: Memo, s: Vec, from: Vec, m': Memo, from': Vec)
  {
    (s in m.table ==> m' == m && from' == from) &&
    (s !in m.table ==> m'.val.Some? && m'.table == m.table[s := m'.val.value]) &&
    CacheSound(pal, m'.table) &&
    (m'.val.Some? ==> from' in m'.table && pal.Resolve(from').Some? && m'.val.value == m'.table[from'])
  }

  /** The treatment of one source colour `s`: on a miss the clusters are
      scanned, `val` is updated when a cluster owns `s`, and the outcome is
      recorded; `ok` is false when `val` is still unset. */
  method LookupColor(pal: Palette, m: Memo, s: Vec, ghost from: Vec)
    returns (ok: bool, m': Memo, ghost from': Vec)
    requires CacheSound(pal, m.table)
    requires m.val.Some? ==> from in m.table && pal.Resolve(from).Some? && m.val.value == m.table[from]
    ensures ok <==> s in m.table || pal.Resolve(s).Some? || m.val.Some?
    ensures ok ==> Looked(pal, m, s, from, m', from')
    ensures ok && s !in m.table && pal.Resolve(s).Some? ==> from' == s
    ensures ok && s !in m.table && pal.Resolve(s).None? ==> m'.val == m.val && from' == from
  {
    if s in m.table {
      return true, m, from;
    }
    var owner := FindOwner(pal.clusters, pal.encoder(s));
    var val := m.val;
    from' := from;
    if owner.Some? {
      val := Some(pal.decoder(pal.clusters[owner.value].centroid));
      from' := s;
    } else if val.None? {
      return false, m, from;
    }
    CacheExtend(pal, m.table, s, val.value, from);
    m' := Memo(m.table[s := val.value], val);
    ok := true;
  }

  /** The keys stay located when the colour of pixel `(x, y)` joins them. */
  lemma LocatedAdvance(spix: array2<Vec>, t: map<Vec, Vec>, t': map<Vec, Vec>,
                       where: map<Vec, (int, int)>, x: int, y: int)
    requires 0 <= x < spix.Length0 && 0 <= y < spix.Length1
    requires Located(spix, t, where, x, y)
    requires forall c :: c in t' <==> c in t || c == spix[x, y]
    ensures Located(spix, t', if spix[x, y] in t then where else where[spix[x, y] := (x, y)], x + 1, y)
  {
    var s := spix[x, y];
    var w := if s in t then where else where[s := (x, y)];
    forall c | c in t'
      ensures c in w && 0 <= w[c].0 < spix.Length0 && 0 <= w[c].1 < spix.Length1 &&
              Before(w[c].0, w[c].1, x + 1, y) && spix[w[c].0, w[c].1] == c
    {
      if c in t {
        assert Before(where[c].0, where[c].1, x, y);
      }
    }
  }

  /** Looking up the colour of pixel `(x, y)` carries the memory's
      invariant on to the next pixel. */
  lemma MemoAdvance(pal: Palette, spix: array2<Vec>, m: Memo, from: Vec, where: map<Vec, (int, int)>,
                    searches: nat, x: int, y: int, m': Memo, from': Vec)
    requires 0 <= x < spix.Length0 && 0 <= y < spix.Length1
    requires MemoInv(pal, spix, m, from, where, searches, x, y)
    requires spix[x, y] in m.table || pal.Resolve(spix[x, y]).Some? || m.val.Some?
    requires Looked(pal, m, spix[x, y], from, m', from')
    ensures var s := spix[x, y];
            MemoInv(pal, spix, m', from', if s in m.table then where else where[s := (x, y)],
                    if s in m.table then searches else searches + 1, x + 1, y)
  {
    LocatedAdvance(spix, m.table, m'.table, where, x, y);
    assert ValFrom(pal, spix, m', from', x + 1, y);
  }

  /** Painted pixels stay consistent with a cache that only gains keys. */
  lemma PaintedGrow(spix: array2<Vec>, dpix: array2<Vec>, t: map<Vec, Vec>, t': map<Vec, Vec>, x: int, y: int)
    requires dpix.Length0 == spix.Length0 && dpix.Length1 == spix.Length1
    requires PaintedBefore(spix, dpix, t, x, y)
    requires forall c :: c in t ==> c in t' && t'[c] == t[c]
    ensures PaintedBefore(spix, dpix, t', x, y)
  {
  }

  /** The write of the pixel loop: pixel `(x, y)` takes the cached value of
      its source colour. */
  method PaintAt(spix: array2<Vec>, dpix: array2<Vec>, x: nat, y: nat, table: map<Vec, Vec>)
    requires dpix != spix && dpix.Length0 == spix.Length0 && dpix.Length1 == spix.Length1
    requires x < spix.Length0 && y < spix.Length1 && spix[x, y] in table
    requires PaintedBefore(spix, dpix, table, x, y)
    modifies dpix
    ensures PaintedBefore(spix, dpix, table, x + 1, y)
  {
    dpix[x, y] := table[spix[x, y]];
    forall i, j | 0 <= i < spix.Length0 && 0 <= j < spix.Length1 && Before(i, j, x + 1, y)
      ensures spix[i, j] in table && dpix[i, j] == table[spix[i, j]]
    {
      if i != x || j != y {
        assert Before(i, j, x, y);
      }
    }
  }

  /** One pass of the pixel loop at `(x, y)`: look the source colour up
      and paint the destination pixel. */
  method PaintPixel(spix: array2<Vec>, dpix: array2<Vec>, x: nat, y: nat, pal: Palette,
                    m: Memo, ghost from: Vec, ghost where: map<Vec, (int, int)>, ghost searches: nat)
    returns (ok: bool, m': Memo, ghost from': Vec, ghost where': map<Vec, (int, int)>, ghost searches': nat)
    requires dpix != spix && dpix.Length0 == spix.Length0 && dpix.Length1 == spix.Length1
    requires x < spix.Length0 && y < spix.Length1
    requires MemoInv(pal, spix, m, from, where, searches, x, y)
    requires PaintedBefore(spix, dpix, m.table, x, y)
    modifies dpix
    ensures ok <==> !(x == 0 && y == 0 && pal.Resolve(spix[0, 0]).None?)
    ensures ok ==> MemoInv(pal, spix, m', from', where', searches', x + 1, y)
    ensures ok ==> PaintedBefore(spix, dpix, m'.table, x + 1, y)
  {
    ok, m', from', where', searches' := VisitPixel(spix, x, y, pal, m, from, where, searches);
    if !ok {
      return;
    }
    PaintedGrow(spix, dpix, m.table, m'.table, x, y);
    PaintAt(spix, dpix, x, y, m'.table);
  }

  /** The lookup half of one pass of the pixel loop: the colour of pixel
      `(x, y)` is looked up and the memory moves on to the next pixel. */
  method VisitPixel(spix: array2<Vec>, x: nat, y: nat, pal: Palette,
                    m: Memo, ghost from: Vec, ghost where: map<Vec, (int, int)>, ghost searches: nat)
    returns (ok: bool, m': Memo, ghost from': Vec, ghost where': map<Vec, (int, int)>, ghost searches': nat)
    requires x < spix.Length0 && y < spix.Length1
    requires MemoInv(pal, spix, m, from, where, searches, x, y)
    ensures ok <==> !(x == 0 && y == 0 && pal.Resolve(spix[0, 0]).None?)
    ensures ok ==> MemoInv(pal, spix, m', from', where', searches', x + 1, y)
    ensures ok ==> spix[x, y] in m'.table && forall c :: c in m.table ==> c in m'.table && m'.table[c] == m.table[c]
  {
    var s := spix[x, y];
    ok, m', from' := LookupColor(pal, m, s, from);
    where', searches' := where, searches;
    if !ok {
      return;
    }
    MemoAdvance(pal, spix, m, from, where, searches, x, y, m', from');
    if s !in m.table {
      where' := where[s := (x, y)];
      searches' := searches + 1;
    }
  }

  /** The loop over one row `y`. */
  method RemapRow(spix: array2<Vec>, dpix: array2<Vec>, y: nat, pal: Palette,
                  m: Memo, ghost from: Vec, ghost where: map<Vec, (int, int)>, ghost searches: nat)
    returns (ok: bool, m': Memo, ghost from': Vec, ghost where': map<Vec, (int, int)>, ghost searches': nat)
    requires dpix != spix && dpix.Length0 == spix.Length0 && dpix.Length1 == spix.Length1
    requires y < spix.Length1
    requires MemoInv(pal, spix, m, from, where, searches, 0, y)
    requires PaintedBefore(spix, dpix, m.table, 0, y)
    modifies dpix
    ensures ok <==> !(y == 0 && spix.Length0 > 0 && pal.Resolve(spix[0, 0]).None?)
    ensures ok ==> MemoInv(pal, spix, m', from', where', searches', 0, y + 1)
    ensures ok ==> PaintedBefore(spix, dpix, m'.table, 0, y + 1)
  {
    m', from', where', searches' := m, from, where, searches;
    var x := 0;
    while x < spix.Length0
      invariant 0 <= x <= spix.Length0
      invariant MemoInv(pal, spix, m', from', where', searches', x, y)
      invariant PaintedBefore(spix, dpix, m'.table, x, y)
      invariant x > 0 ==> !(y == 0 && pal.Resolve(spix[0, 0]).None?)
    {
      ok, m', from', where', searches' := PaintPixel(spix, dpix, x, y, pal, m', from', where', searches');
      if !ok {
        return;
      }
      x := x + 1;
    }
    RowDone(pal, spix, dpix, m', from', where', searches', y);
    ok := true;
  }

  /** `__create_result_image`: each pixel, row by row, is repainted with the
      decoded centroid of the first cluster that owns its encoded colour;
      the outcome is memoised per source colour. When no cluster owns a
      colour, the body reuses the value left over from the last owned colour
      it resolved; the contract states only that the reused value is the
      cached value of some owned colour. When that happens at the very first
      pixel the value is unbound.
      `searches` counts the scans of the cluster list. */
  method CreateResultImage(image: Image, pal: Palette)
    returns (r: Result<Image, QuantError>, ghost cache: map<Vec, Vec>, ghost searches: nat)
    ensures r.Err? <==> image.pixels.Length0 > 0 && image.pixels.Length1 > 0 &&
                        pal.Resolve(image.pixels[0, 0]).None?
    ensures r.Err? ==> r.error == UnboundLocalError
    ensures r.Ok? ==> fresh(r.value) && fresh(r.value.pixels) && r.value.mode == image.mode
    ensures r.Ok? ==> r.value.pixels.Length0 == image.pixels.Length0 &&
                      r.value.pixels.Length1 == image.pixels.Length1
    ensures r.Ok? ==> forall x, y :: 0 <= x < image.pixels.Length0 && 0 <= y < image.pixels.Length1 ==>
                        image.pixels[x, y] in cache && r.value.pixels[x, y] == cache[image.pixels[x, y]]
    ensures r.Ok? ==> CacheSound(pal, cache)
    ensures r.Ok? ==> forall x, y ::
                        0 <= x < image.pixels.Length0 && 0 <= y < image.pixels.Length1 &&
                        pal.Resolve(image.pixels[x, y]).Some? ==>
                        r.value.pixels[x, y] == pal.Resolve(image.pixels[x, y]).value
    ensures r.Ok? ==> forall x, y, x', y' ::
                        0 <= x < image.pixels.Length0 && 0 <= y < image.pixels.Length1 &&
                        0 <= x' < image.pixels.Length0 && 0 <= y' < image.pixels.Length1 &&
                        image.pixels[x, y] == image.pixels[x', y'] ==>
                        r.value.pixels[x, y] == r.value.pixels[x', y']
    ensures r.Ok? ==> forall c :: c in cache ==> exists x, y ::
                        0 <= x < image.pixels.Length0 && 0 <= y < image.pixels.Length1 && image.pixels[x, y] == c
    ensures r.Ok? ==> searches == |cache|
  {
    var spix := image.pixels;
    var res := new Image.Create(image.mode, spix.Length0, spix.Length1);
    var dpix := res.pixels;
    var m := Memo(map[], None);
    ghost var from: Vec := [];
    ghost var where: map<Vec, (int, int)> := map[];
    searches := 0;
    var y := 0;
    while y < spix.Length1
      invariant 0 <= y <= spix.Length1
      invariant fresh(dpix) && dpix.Length0 == spix.Length0 && dpix.Length1 == spix.Length1
      invariant MemoInv(pal, spix, m, from, where, searches, 0, y)
      invariant PaintedBefore(spix, dpix, m.table, 0, y)
      invariant y > 0 ==> !(spix.Length0 > 0 && pal.Resolve(spix[0, 0]).None?)
    {
      var ok;
      ok, m, from, where, searches := RemapRow(spix, dpix, y, pal, m, from, where, searches);
      if !ok {
        return Err(UnboundLocalError), m.table, searches;
      }
      y := y + 1;
    }
    cache := m.table;
    forall c | c in cache
      ensures exists x, y :: 0 <= x < spix.Length0 && 0 <= y < spix.Length1 && spix[x, y] == c
    {
      assert spix[where[c].0, where[c].1] == c;
    }
    return Ok(res), cache, searches;
  }

  // ---------------------------------------------------------------------
  // The filter's entry point
  // ---------------------------------------------------------------------

  /** The argument handed to `process`: an image, or anything else. */
  datatype Input = ImageInput(image: Image) | OtherInput

  /** The guards of `process`: an argument that is not an image raises
      `TypeError`, and an image whose upper-cased mode is not `RGB` raises
      `ValueError`. */
  function CheckInput(input: Input): (r: Result<Image, QuantError>)
    ensures r.Ok? <==> input.ImageInput? && Strings.Upper(input.image.mode) == "RGB"
    ensures r.Ok? ==> r.value == input.image
    ensures input.OtherInput? ==> r == Err(TypeError)
    ensures input.ImageInput? && Strings.Upper(input.image.mode) != "RGB" ==> r == Err(ValueError)
  {
    match input
    case OtherInput => Err(TypeError)
    case ImageInput(image) =>
      if Strings.Upper(image.mode) != "RGB" then Err(ValueError) else Ok(image)
  }

  /** The mode check ignores letter case: any spelling of `rgb` passes. */
  lemma AnyCaseRgbAccepted(image: Image)
    requires Strings.Lower(image.mode) == "rgb"
    ensures CheckInput(ImageInput(image)).Ok?
  {
    var m := image.mode;
    forall i | 0 <= i < 3 ensures Strings.Upper(m)[i] == "RGB"[i] {
      assert Strings.LowerChar(m[i]) == "rgb"[i];
    }
  }

  /** The samples handed to k-means: the colours of the histogram, in order. */
  function Samples(colors: seq<ColorCount>): (r: seq<Vec>)
    ensures |r| == |colors|
    ensures forall i :: 0 <= i < |colors| ==> r[i] == colors[i].vec
  {
    if colors == [] then [] else [colors[0].vec] + Samples(colors[1..])
  }

  /** `dst` is `src` repainted through the palette: a pixel whose colour
      some cluster owns takes that cluster's decoded centroid, and pixels
      of equal colour take equal colours. */
  ghost predicate Repainted(src: array2<Vec>, dst: array2<Vec>, pal: Palette)
    reads src, dst
  {
    dst.Length0 == src.Length0 && dst.Length1 == src.Length1 &&
    (forall x, y :: 0 <= x < src.Length0 && 0 <= y < src.Length1 && pal.Resolve(src[x, y]).Some? ==>
       dst[x, y] == pal.Resolve(src[x, y]).value) &&
    (forall x, y, x', y' ::
       0 <= x < src.Length0 && 0 <= y < src.Length1 && 0 <= x' < src.Length0 && 0 <= y' < src.Length1 &&
       src[x, y] == src[x', y'] ==>
       dst[x, y] == dst[x', y'])
  }

  /** The work of `process` on an image that passed the guards: seed the
      clusters from the image's histogram `colors`, refine them with
      `kmeans`, and repaint the image. A seeding error propagates. */
  method Quantize(q: Quantizer, ranges: map<string, (Vec, Vec)>, image: Image, colors: seq<ColorCount>,
                  kmeans: (seq<Vec>, seq<Seed>) -> seq<Cluster>)
    returns (r: Result<Image, QuantError>)
    requires HistogramOk(colors, image.pixels.Length0 * image.pixels.Length1)
    ensures var seeded := SeedClusters(q, ranges, colors, image.pixels.Length0 * image.pixels.Length1);
            (seeded.Err? ==> r == Err(seeded.error)) &&
            (seeded.Ok? ==>
               var pal := Palette(kmeans(Samples(colors), seeded.value), q.encoder, q.decoder);
               (r.Err? <==> image.pixels.Length0 > 0 && image.pixels.Length1 > 0 &&
                            pal.Resolve(image.pixels[0, 0]).None?) &&
               (r.Err? ==> r.error == UnboundLocalError))
    ensures r.Ok? ==> fresh(r.value) && r.value.mode == image.mode &&
                      r.value.pixels.Length0 == image.pixels.Length0 &&
                      r.value.pixels.Length1 == image.pixels.Length1
    ensures r.Ok? ==> var seeded := SeedClusters(q, ranges, colors, image.pixels.Length0 * image.pixels.Length1);
                      seeded.Ok? &&
                      Repainted(image.pixels, r.value.pixels,
                                Palette(kmeans(Samples(colors), seeded.value), q.encoder, q.decoder))
  {
    var npixels := image.pixels.Length0 * image.pixels.Length1;
    var samples := Samples(colors);
    var seeds := ChooseClusters(q, ranges, colors, npixels);
    if seeds.Err? {
      return Err(seeds.error);
    }
    var clusters := kmeans(samples, seeds.value);
    ghost var cache, searches;
    r, cache, searches := CreateResultImage(image, Palette(clusters, q.encoder, q.decoder));
  }

  /** `process`: the guards, then the quantization of the image. */
  method Process(q: Quantizer, ranges: map<string, (Vec, Vec)>, input: Input, colors: seq<ColorCount>,
                 kmeans: (seq<Vec>, seq<Seed>) -> seq<Cluster>)
    returns (r: Result<Image, QuantError>)
    requires input.ImageInput? ==>
               HistogramOk(colors, input.image.pixels.Length0 * input.image.pixels.Length1)
    ensures CheckInput(input).Err? ==> r == CheckInput(input)
    ensures CheckInput(input).Ok? ==>
              var image := input.image;
              var seeded := SeedClusters(q, ranges, colors, image.pixels.Length0 * image.pixels.Length1);
              (seeded.Err? ==> r == Err(seeded.error)) &&
              (seeded.Ok? ==>
                 var pal := Palette(kmeans(Samples(colors), seeded.value), q.encoder, q.decoder);
                 (r.Err? <==> image.pixels.Length0 > 0 && image.pixels.Length1 > 0 &&
                              pal.Resolve(image.pixels[0, 0]).None?) &&
                 (r.Err? ==> r.error == UnboundLocalError))
    ensures r.Ok? ==> input.ImageInput? && Strings.Upper(input.image.mode) == "RGB" &&
                      fresh(r.value) && r.value.mode == input.image.mode &&
                      r.value.pixels.Length0 == input.image.pixels.Length0 &&
                      r.value.pixels.Length1 == input.image.pixels.Length1
    ensures r.Ok? ==> var image := input.image;
                      var seeded := SeedClusters(q, ranges, colors, image.pixels.Length0 * image.pixels.Length1);
                      seeded.Ok? &&
                      Repainted(image.pixels, r.value.pixels,
                                Palette(kmeans(Samples(colors), seeded.value), q.encoder, q.decoder))
  {
    var checked := CheckInput(input);
    if checked.Err? {
      return checked;
    }
    r := Quantize(q, ranges, checked.value, colors, kmeans);
  }
}
