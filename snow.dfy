/** `makeSnow`: the descriptors of the falling snow flakes. Each
    `Math.random()` call is an injected draw in [0, 1), so every descriptor is
    an exact function of its index and its draws. */
module Snow {
  import opened Draws

  const SnowCount: nat := 200
  const SnowLayers: nat := 4

  /** The seven draws one flake consumes, in the order the source makes them:
      position, travel, duration, size, curve choice, then opacity and
      vertical start (the style object's `background-color` entry is
      evaluated before its `--y` entry). */
  datatype FlakeDraws = FlakeDraws(x: real, travel: real, duration: real, size: real,
                                   curve: real, opacity: real, y: real)

  predicate ValidDraws(d: FlakeDraws) {
    IsDraw(d.x) && IsDraw(d.travel) && IsDraw(d.duration) && IsDraw(d.size) &&
    IsDraw(d.curve) && IsDraw(d.opacity) && IsDraw(d.y)
  }

  /** The horizontal easing of a flake: `cubic-bezier(.2,.48,.83,.67)` by
      default, `cubic-bezier(.5, 10, .5, -10)` when the draw exceeds 0.5. */
  datatype Curve = Gentle | Swinging

  /** One flake: its layer, `--x` (vw), `--x-travel` (px), animation length
      (s), height and width (px), curve, alpha of its colour, `--y` (vh). */
  datatype Flake = Flake(layer: nat, x: real, travel: real, duration: real, size: real,
                         curve: Curve, opacity: real, y: real)

  /** The flake the body of the `makeSnow` loop builds for index `idx`. */
  function MakeFlake(idx: nat, d: FlakeDraws): (f: Flake)
    ensures f.layer == idx % SnowLayers
    ensures f.curve == Swinging <==> d.curve > 0.5
  {
    var layer := idx % SnowLayers;
    Flake(layer,
          d.x * 100.0,
          d.travel * 20.0 - 10.0,
          d.duration * 2.0 + (layer + 5) as real,
          d.size * 10.0,
          if d.curve > 0.5 then Swinging else Gentle,
          d.opacity / 3.0 * (SnowLayers - layer) as real,
          -(d.y * 500.0))
  }

  /** The ranges a flake at index `idx` keeps to. */
  predicate InRange(f: Flake, idx: nat) {
    && f.layer == idx % SnowLayers
    && (f.layer + 5) as real <= f.duration < (f.layer + 7) as real
    && 0.0 <= f.opacity < (SnowLayers - f.layer) as real / 3.0
    && 0.0 <= f.x < 100.0
    && -10.0 <= f.travel < 10.0
    && 0.0 <= f.size < 10.0
    && -500.0 < f.y <= 0.0
  }

  /** Opacity bound: a draw divided by 3 and scaled by a layer's positive
      factor `k` lies in [0, k / 3). */
  lemma OpacityBound(r: real, k: real, c: real)
    requires IsDraw(r) && k > 0.0 && c == r / 3.0 * k
    ensures 0.0 <= c < k / 3.0
  {
    assert c == (r * k) / 3.0;
    assert r * k < k;
  }

  /** Every flake built from valid draws lies in the ranges. */
  lemma FlakeInRange(idx: nat, d: FlakeDraws)
    requires ValidDraws(d)
    ensures InRange(MakeFlake(idx, d), idx)
  {
    var f := MakeFlake(idx, d);
    OpacityBound(d.opacity, (SnowLayers - f.layer) as real, f.opacity);
  }

  /** The draws that give back a flake, the curve draw chosen on the side of
      0.5 its curve says. */
  function DrawsOf(f: Flake): (d: FlakeDraws)
    requires f.layer < SnowLayers
  {
    FlakeDraws(f.x / 100.0,
               (f.travel + 10.0) / 20.0,
               (f.duration - (f.layer + 5) as real) / 2.0,
               f.size / 10.0,
               if f.curve == Swinging then 0.75 else 0.25,
               f.opacity * 3.0 / (SnowLayers - f.layer) as real,
               -f.y / 500.0)
  }

  /** The ranges are exact: a flake lies in them exactly when some valid
      draws produce it. */
  lemma {:induction false} InRangeExactly(f: Flake, idx: nat)
    ensures InRange(f, idx) <==> exists d :: ValidDraws(d) && MakeFlake(idx, d) == f
  {
    if InRange(f, idx) {
      var d := DrawsOf(f);
      var k := (SnowLayers - f.layer) as real;
      assert k > 0.0;
      assert d.opacity * k == f.opacity * 3.0;
      BelowOne(d.opacity, k, f.opacity * 3.0);
      assert ValidDraws(d);
      assert MakeFlake(idx, d) == f;
    }
    if exists d :: ValidDraws(d) && MakeFlake(idx, d) == f {
      var d :| ValidDraws(d) && MakeFlake(idx, d) == f;
      FlakeInRange(idx, d);
    }
  }

  /** `makeSnow`: one flake per index, `snowCount` of them, appended in
      index order. */
  method MakeSnow(draws: seq<FlakeDraws>) returns (flakes: seq<Flake>)
    requires |draws| == SnowCount
    ensures |flakes| == SnowCount
    ensures forall i :: 0 <= i < SnowCount ==> flakes[i] == MakeFlake(i, draws[i])
    ensures (forall i :: 0 <= i < SnowCount ==> ValidDraws(draws[i])) ==>
              forall i :: 0 <= i < SnowCount ==> InRange(flakes[i], i)
  {
    flakes := [];
    var idx := 0;
    while idx < SnowCount
      invariant idx <= SnowCount
      invariant |flakes| == idx
      invariant forall i :: 0 <= i < idx ==> flakes[i] == MakeFlake(i, draws[i])
    {
      flakes := flakes + [MakeFlake(idx, draws[idx])];
      idx := idx + 1;
    }
    if forall i :: 0 <= i < SnowCount ==> ValidDraws(draws[i]) {
      forall i | 0 <= i < SnowCount
        ensures InRange(flakes[i], i)
      {
        FlakeInRange(i, draws[i]);
      }
    }
  }

  /** How many of the flakes lie in layer `layer`. */
  function CountInLayer(flakes: seq<Flake>, layer: nat): nat {
    if flakes == [] then 0
    else CountInLayer(flakes[..|flakes| - 1], layer) + (if flakes[|flakes| - 1].layer == layer then 1 else 0)
  }

  /** Counting one more flake adds one exactly when it lies in the layer. */
  lemma CountStep(flakes: seq<Flake>, m: nat, layer: nat)
    requires m < |flakes|
    ensures CountInLayer(flakes[..m + 1], layer)
      == CountInLayer(flakes[..m], layer) + (if flakes[m].layer == layer then 1 else 0)
  {
    assert flakes[..m + 1][..m] == flakes[..m];
  }

  /** How many of the indices below `n` a round-robin assignment puts in
      layer `layer`. */
  function RoundRobinCount(n: nat, layer: nat): nat {
    if n == 0 then 0
    else RoundRobinCount(n - 1, layer) + (if (n - 1) % SnowLayers == layer then 1 else 0)
  }

  /** Flakes laid out round-robin are counted per layer as their indices are. */
  lemma {:induction false} CountIsRoundRobin(flakes: seq<Flake>, n: nat, layer: nat)
    requires n <= |flakes|
    requires forall i :: 0 <= i < |flakes| ==> flakes[i].layer == i % SnowLayers
    ensures CountInLayer(flakes[..n], layer) == RoundRobinCount(n, layer)
  {
    if n > 0 {
      CountIsRoundRobin(flakes, n - 1, layer);
      CountStep(flakes, n - 1, layer);
    }
  }

  /** Index `k` of the round after the first `p` lies in layer `k`. */
  lemma RoundOffset(p: nat, k: nat)
    requires k < SnowLayers
    ensures SnowLayers * p + k >= 0
    ensures (SnowLayers * p + k) % SnowLayers == k
    ensures SnowLayers * (p + 1) == SnowLayers * p + k + (SnowLayers - k)
  {
    assert (4 * p + k) % 4 == k;
  }

  /** Every round of `SnowLayers` indices puts one in each layer. */
  lemma {:induction false} RoundRobinCountRounds(q: nat, layer: nat)
    requires layer < SnowLayers
    ensures RoundRobinCount(SnowLayers * q, layer) == q
  {
    if q > 0 {
      var p := q - 1;
      RoundRobinCountRounds(p, layer);
      RoundOffset(p, 0);
      RoundOffset(p, 1);
      RoundOffset(p, 2);
      RoundOffset(p, 3);
      var m := SnowLayers * p;
      assert RoundRobinCount(m + 1, layer) == p + (if layer == 0 then 1 else 0);
      assert RoundRobinCount(m + 2, layer) == p + (if layer <= 1 then 1 else 0);
      assert RoundRobinCount(m + 3, layer) == p + (if layer <= 2 then 1 else 0);
      assert RoundRobinCount(m + 4, layer) == p + 1;
    }
  }

  /** Round-robin assignment fills the layers evenly: with `SnowLayers * q`
      flakes, each layer holds exactly `q`. */
  lemma LayersEven(flakes: seq<Flake>, q: nat, layer: nat)
    requires layer < SnowLayers
    requires |flakes| == SnowLayers * q
    requires forall i :: 0 <= i < |flakes| ==> flakes[i].layer == i % SnowLayers
    ensures CountInLayer(flakes, layer) == q
  {
    CountIsRoundRobin(flakes, |flakes|, layer);
    assert flakes[..|flakes|] == flakes;
    RoundRobinCountRounds(q, layer);
  }

  /** Each of the four layers of the generated field holds 50 flakes. */
  lemma SnowFieldLayers(draws: seq<FlakeDraws>, flakes: seq<Flake>, layer: nat)
    requires |draws| == SnowCount && layer < SnowLayers
    requires |flakes| == SnowCount
    requires forall i :: 0 <= i < SnowCount ==> flakes[i] == MakeFlake(i, draws[i])
    ensures CountInLayer(flakes, layer) == SnowCount / SnowLayers
  {
    LayersEven(flakes, SnowCount / SnowLayers, layer);
  }
}
