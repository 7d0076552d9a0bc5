/** `makeDunes`: the descriptors of the snow dunes, one cubic Bézier path per
    bucket of the view box. Each `Math.random()` call is an injected draw in
    [0, 1). */
module Dunes {
  import opened Draws

  const DuneCount: nat := 8
  const MinDuneLength: real := 300.0
  const MaxDuneLength: real := 1000.0
  const ViewboxWidth: real := 3000.0
  /** The path's move-to height: every dune starts at y = 100. */
  const BaseY: real := 100.0

  /** `viewboxWidth / duneCount`. */
  function BucketSize(): (b: real)
    ensures b == 375.0
  {
    ViewboxWidth / DuneCount as real
  }

  /** The four draws one dune consumes, in the order the source makes them:
      offset in the bucket, length, then the free control point's x and y. */
  datatype DuneDraws = DuneDraws(start: real, length: real, x1: real, y1: real)

  predicate ValidDraws(d: DuneDraws) {
    IsDraw(d.start) && IsDraw(d.length) && IsDraw(d.x1) && IsDraw(d.y1)
  }

  /** Even indices draw a right curve, odd ones a left curve. */
  datatype Family = RightCurve | LeftCurve

  /** One path `M startX 100 c c1x,c1y c2x,c2y endX,endY` (control and end
      points relative to the start) filled with `fill`. */
  datatype Dune = Dune(startX: real, startY: real, length: real, family: Family,
                       c1x: real, c1y: real, c2x: real, c2y: real,
                       endX: real, endY: real, fill: string)

  /** The start of bucket `idx`. */
  function BucketStart(idx: nat): real {
    BucketSize() * idx as real
  }

  /** The path the body of the `makeDunes` loop builds for index `idx`. */
  function MakeDune(idx: nat, fill: string, d: DuneDraws): (dune: Dune)
    ensures dune.family == (if idx % 2 == 0 then RightCurve else LeftCurve)
    ensures dune.fill == fill
  {
    var xOffset := d.start * (BucketSize() / 2.0) + BucketStart(idx);
    var duneLength := d.length * (MaxDuneLength - MinDuneLength) + MinDuneLength;
    var x1 := if idx % 2 == 0 then d.x1 * (duneLength / 2.0) else d.x1 * duneLength;
    var y1 := d.y1 * (-0.5 * duneLength);
    Dune(xOffset, BaseY, duneLength, if idx % 2 == 0 then RightCurve else LeftCurve,
         x1, y1, 400.0, 0.0, duneLength, 0.0, fill)
  }

  /** The shape a dune at index `idx` keeps to. */
  predicate InRange(dune: Dune, idx: nat) {
    && BucketStart(idx) <= dune.startX < BucketStart(idx) + BucketSize() / 2.0
    && dune.startY == BaseY
    && MinDuneLength <= dune.length < MaxDuneLength
    && dune.family == (if idx % 2 == 0 then RightCurve else LeftCurve)
    && 0.0 <= dune.c1x < (if idx % 2 == 0 then dune.length / 2.0 else dune.length)
    && -dune.length / 2.0 < dune.c1y <= 0.0
    && dune.c2x == 400.0 && dune.c2y == 0.0
    && dune.endX == dune.length && dune.endY == 0.0
  }

  /** Every dune built from valid draws has the shape of its index. */
  lemma DuneInRange(idx: nat, fill: string, d: DuneDraws)
    requires ValidDraws(d)
    ensures InRange(MakeDune(idx, fill, d), idx)
  {
    var dune := MakeDune(idx, fill, d);
    var len := dune.length;
    assert MinDuneLength <= len < MaxDuneLength;
    if idx % 2 == 0 {
      ScaledBelow(d.x1, len / 2.0, dune.c1x);
    } else {
      ScaledBelow(d.x1, len, dune.c1x);
    }
    ScaledBelow(d.y1, len / 2.0, -dune.c1y);
  }

  /** The draw that scales a positive span `k` to an offset `v` in [0, k). */
  lemma Unscale(v: real, k: real) returns (q: real)
    requires k > 0.0 && 0.0 <= v < k
    ensures IsDraw(q) && q * k == v
  {
    q := v / k;
    BelowOne(q, k, v);
  }

  /** Draws that scale each span back to the dune's own offsets rebuild it. */
  lemma RebuiltFrom(dune: Dune, idx: nat, d: DuneDraws)
    requires InRange(dune, idx)
    requires d.start * (BucketSize() / 2.0) == dune.startX - BucketStart(idx)
    requires d.length * (MaxDuneLength - MinDuneLength) == dune.length - MinDuneLength
    requires idx % 2 == 0 ==> d.x1 * (dune.length / 2.0) == dune.c1x
    requires idx % 2 != 0 ==> d.x1 * dune.length == dune.c1x
    requires d.y1 * (dune.length / 2.0) == -dune.c1y
    ensures MakeDune(idx, dune.fill, d) == dune
  {
    HalfNegated(d.y1, dune.length, dune.c1y);
  }

  /** Scaling by `-0.5 * len` is the negation of scaling by `len / 2`. */
  lemma HalfNegated(q: real, len: real, c: real)
    requires q * (len / 2.0) == -c
    ensures q * (-0.5 * len) == c
  {
  }

  /** The shape is exact: a dune has it exactly when some valid draws, with
      the dune's own fill, produce it. */
  lemma {:induction false} InRangeExactly(dune: Dune, idx: nat)
    ensures InRange(dune, idx) <==> exists d :: ValidDraws(d) && MakeDune(idx, dune.fill, d) == dune
  {
    if InRange(dune, idx) {
      var len := dune.length;
      var start := Unscale(dune.startX - BucketStart(idx), BucketSize() / 2.0);
      var length := Unscale(len - MinDuneLength, MaxDuneLength - MinDuneLength);
      var y1 := Unscale(-dune.c1y, len / 2.0);
      var x1: real;
      if idx % 2 == 0 {
        x1 := Unscale(dune.c1x, len / 2.0);
      } else {
        x1 := Unscale(dune.c1x, len);
      }
      RebuiltFrom(dune, idx, DuneDraws(start, length, x1, y1));
    }
    if exists d :: ValidDraws(d) && MakeDune(idx, dune.fill, d) == dune {
      var d :| ValidDraws(d) && MakeDune(idx, dune.fill, d) == dune;
      DuneInRange(idx, dune.fill, d);
    }
  }

  /** `makeDunes`: one path per index, `duneCount` of them, appended in
      index order, all filled with the current snow colour. */
  method MakeDunes(fill: string, draws: seq<DuneDraws>) returns (dunes: seq<Dune>)
    requires |draws| == DuneCount
    ensures |dunes| == DuneCount
    ensures forall i :: 0 <= i < DuneCount ==> dunes[i] == MakeDune(i, fill, draws[i])
    ensures (forall i :: 0 <= i < DuneCount ==> ValidDraws(draws[i])) ==>
              forall i :: 0 <= i < DuneCount ==> InRange(dunes[i], i)
  {
    dunes := [];
    var idx := 0;
    while idx < DuneCount
      invariant idx <= DuneCount
      invariant |dunes| == idx
      invariant forall i :: 0 <= i < idx ==> dunes[i] == MakeDune(i, fill, draws[i])
    {
      dunes := dunes + [MakeDune(idx, fill, draws[idx])];
      idx := idx + 1;
    }
    if forall i :: 0 <= i < DuneCount ==> ValidDraws(draws[i]) {
      forall i | 0 <= i < DuneCount
        ensures InRange(dunes[i], i)
      {
        DuneInRange(i, fill, draws[i]);
      }
    }
  }

  /** Dunes of valid draws start left to right: each start lies strictly
      before the next one's, and all starts lie inside the view box. */
  lemma {:induction false} StartsOrdered(dunes: seq<Dune>)
    requires |dunes| == DuneCount
    requires forall i :: 0 <= i < DuneCount ==> InRange(dunes[i], i)
    ensures forall i, j :: 0 <= i < j < DuneCount ==> dunes[i].startX < dunes[j].startX
    ensures forall i :: 0 <= i < DuneCount ==> 0.0 <= dunes[i].startX < ViewboxWidth
  {
    forall i, j | 0 <= i < j < DuneCount
      ensures dunes[i].startX < dunes[j].startX
    {
      assert BucketStart(i) + BucketSize() / 2.0 < BucketStart(j);
    }
  }
}
