/** The darknet network builder: channel counts inferred while building against the tensors met when
    running. Tensors are modelled by their shapes. */
module Darknet {

  datatype Block =
    | Convolutional(filters: nat, size: nat, stride: nat, pad: bool, batchNormalize: bool)
    | MaxPool(size: nat, stride: nat)
    | Route(refs: seq<int>)
    | Reorg3d(stride: nat)
    | Region

  datatype Layer =
    | Conv(inChannels: nat, filters: nat, size: nat, stride: nat, pad: int, bn: bool)
    | Pool(size: nat, stride: nat)
    | Routed(refs: seq<int>)
    | Reorg(stride: nat)
    | RegionHead

  datatype Error = IndexError | ChannelMismatch | SizeError | NoRegion

  datatype Result<+T> = Ok(value: T) | Err(error: Error)

  // ---- Python indexing ---------------------------------------------------------------------------

  /** Where xs[i] points in a list of length n, or nowhere. */
  predicate PyValid(i: int, n: nat) { 0 <= i + n && i < n }

  function PyIndex(i: int, n: nat): (k: nat)
    requires PyValid(i, n)
    ensures k < n
  {
    if i >= 0 then i else n + i
  }

  /** While building: chans[r + len(chans) if r < 0 else r + 1] */
  function BuildRef(r: int, chans: nat): int { if r < 0 then r + chans else r + 1 }

  /** While running: outs[r if r >= 0 else len(outs) + r] */
  function RunRef(r: int, outs: nat): int { if r >= 0 then r else outs + r }

  /** The two lookups name the same layer exactly for references to an earlier layer. Python's own
      negative indexing makes every other reference that does not raise read a different layer. */
  lemma RouteRefExact(r: int, n: nat)
    ensures (PyValid(BuildRef(r, n + 1), n + 1) && PyValid(RunRef(r, n), n)
             && PyIndex(BuildRef(r, n + 1), n + 1) == PyIndex(RunRef(r, n), n) + 1)
            <==> 0 <= r + n && r < n
  {
  }

  // ---- Building ------------------------------------------------------------------------------------

  function Sum(chans: seq<nat>, refs: seq<int>): Result<nat> {
    if refs == [] then Ok(0)
    else
      var k := BuildRef(refs[|refs| - 1], |chans|);
      match Sum(chans, refs[..|refs| - 1])
      case Err(e) => Err(e)
      case Ok(total) => if PyValid(k, |chans|) then Ok(total + chans[PyIndex(k, |chans|)]) else Err(IndexError)
  }

  /** The layer a block becomes and the channel count recorded for it. */
  function BuildBlock(b: Block, chans: seq<nat>): Result<(Layer, nat)>
    requires chans != []
  {
    var last := chans[|chans| - 1];
    match b
    case Convolutional(filters, size, stride, pad, bn) =>
      Ok((Conv(last, filters, size, stride, if pad then (size - 1) / 2 else 0, bn), filters))
    case MaxPool(size, stride) => Ok((Pool(size, stride), last))
    case Route(refs) =>
      (match Sum(chans, refs)
       case Ok(total) => Ok((Routed(refs), total))
       case Err(e) => Err(e))
    case Reorg3d(s) => Ok((Reorg(s), last * s * s))
    case Region => Ok((RegionHead, last))
  }

  datatype Net = Net(layers: seq<Layer>, chans: seq<nat>)

  function Build(input: nat, blocks: seq<Block>): (r: Result<Net>)
    ensures r.Ok? ==> |r.value.layers| == |blocks| && |r.value.chans| == |blocks| + 1 && r.value.chans[0] == input
  {
    if blocks == [] then Ok(Net([], [input]))
    else
      match Build(input, blocks[..|blocks| - 1])
      case Err(e) => Err(e)
      case Ok(net) =>
        match BuildBlock(blocks[|blocks| - 1], net.chans)
        case Err(e) => Err(e)
        case Ok((layer, c)) => Ok(Net(net.layers + [layer], net.chans + [c]))
  }

  /** YoloV2.__init__: one pass that appends to mods and chans. */
  method BuildNet(input: nat, blocks: seq<Block>) returns (r: Result<Net>)
    ensures r == Build(input, blocks)
  {
    var layers: seq<Layer> := [];
    var chans: seq<nat> := [input];
    for i := 0 to |blocks|
      invariant Build(input, blocks[..i]) == Ok(Net(layers, chans))
    {
      assert blocks[..i + 1][..i] == blocks[..i];
      var built := BuildOne(blocks[i], chans);
      if built.Err? {
        BuildErrStays(input, blocks, i + 1);
        return Err(built.error);
      }
      layers, chans := layers + [built.value.0], chans + [built.value.1];
    }
    assert blocks[..|blocks|] == blocks;
    r := Ok(Net(layers, chans));
  }

  lemma {:induction false} BuildErrStays(input: nat, blocks: seq<Block>, i: nat)
    requires i <= |blocks| && Build(input, blocks[..i]).Err?
    ensures Build(input, blocks) == Err(Build(input, blocks[..i]).error)
    decreases |blocks| - i
  {
    if i < |blocks| {
      assert blocks[..i + 1][..i] == blocks[..i];
      BuildErrStays(input, blocks, i + 1);
    } else {
      assert blocks[..i] == blocks;
    }
  }

  method BuildOne(b: Block, chans: seq<nat>) returns (r: Result<(Layer, nat)>)
    requires chans != []
    ensures r == BuildBlock(b, chans)
  {
    var last := chans[|chans| - 1];
    match b {
      case Convolutional(filters, size, stride, pad, bn) =>
        var padding := if pad then (size - 1) / 2 else 0;
        r := Ok((Conv(last, filters, size, stride, padding, bn), filters));
      case MaxPool(size, stride) =>
        r := Ok((Pool(size, stride), last));
      case Route(refs) =>
        var total: nat := 0;
        for i := 0 to |refs|
          invariant Sum(chans, refs[..i]) == Ok(total)
        {
          assert refs[..i + 1][..i] == refs[..i];
          var k := BuildRef(refs[i], |chans|);
          if !PyValid(k, |chans|) {
            SumErrStays(chans, refs, i + 1);
            return Err(IndexError);
          }
          total := total + chans[PyIndex(k, |chans|)];
        }
        assert refs[..|refs|] == refs;
        r := Ok((Routed(refs), total));
      case Reorg3d(s) =>
        r := Ok((Reorg(s), last * s * s));
      case Region =>
        r := Ok((RegionHead, last));
    }
  }

  lemma {:induction false} SumErrStays(chans: seq<nat>, refs: seq<int>, i: nat)
    requires i <= |refs| && Sum(chans, refs[..i]).Err?
    ensures Sum(chans, refs) == Err(Sum(chans, refs[..i]).error)
    decreases |refs| - i
  {
    if i < |refs| {
      assert refs[..i + 1][..i] == refs[..i];
      SumErrStays(chans, refs, i + 1);
    } else {
      assert refs[..i] == refs;
    }
  }

  // ---- Running -------------------------------------------------------------------------------------

  datatype Shape = Shape(c: nat, h: nat, w: nat)

  /** Output extent of a window of `size` moved by `stride` over d padded by p on both sides. */
  function Slide(d: nat, size: nat, stride: nat, p: int): Result<nat> {
    if stride == 0 || d + 2 * p < size then Err(SizeError) else Ok((d + 2 * p - size) / stride + 1)
  }

  function Slid(c: nat, x: Shape, size: nat, stride: nat, p: int): Result<Shape> {
    match (Slide(x.h, size, stride, p), Slide(x.w, size, stride, p))
    case (Ok(h), Ok(w)) => Ok(Shape(c, h, w))
    case _ => Err(SizeError)
  }

  /** torch.cat along channels: equal spatial extents, channels add up. */
  function Cat(outs: seq<Shape>, refs: seq<int>): Result<Shape> {
    if refs == [] then Err(IndexError)
    else
      var k := RunRef(refs[|refs| - 1], |outs|);
      if !PyValid(k, |outs|) then Err(IndexError)
      else
        var part := outs[PyIndex(k, |outs|)];
        if |refs| == 1 then Ok(part)
        else
          match Cat(outs, refs[..|refs| - 1])
          case Err(e) => Err(e)
          case Ok(x) => if (x.h, x.w) == (part.h, part.w) then Ok(x.(c := x.c + part.c)) else Err(SizeError)
  }

  function RunLayer(l: Layer, x: Shape, outs: seq<Shape>): Result<Shape> {
    match l
    case Conv(inC, filters, size, stride, p, _) =>
      if x.c != inC then Err(ChannelMismatch) else Slid(filters, x, size, stride, p)
    case Pool(size, stride) => Slid(x.c, x, size, stride, 0)
    case Routed(refs) => Cat(outs, refs)
    case Reorg(s) =>
      if s == 0 || x.h % s != 0 || x.w % s != 0 then Err(SizeError) else Ok(Shape(x.c * s * s, x.h / s, x.w / s))
    case RegionHead => Ok(x)
  }

  /** One more layer after the outputs so far. */
  function Extended(run: Result<seq<Shape>>, x0: Shape, l: Layer): (r: Result<seq<Shape>>)
    ensures r.Ok? ==> run.Ok? && |r.value| == |run.value| + 1
  {
    match run
    case Err(e) => Err(e)
    case Ok(outs) =>
      match RunLayer(l, Current(x0, outs), outs)
      case Err(e) => Err(e)
      case Ok(x) => Ok(outs + [x])
  }

  /** The outputs of the first layers, none of them the region head. */
  function Run(layers: seq<Layer>, x0: Shape): (r: Result<seq<Shape>>)
    ensures r.Ok? ==> |r.value| == |layers|
  {
    if layers == [] then Ok([])
    else Extended(Run(layers[..|layers| - 1], x0), x0, layers[|layers| - 1])
  }

  /** What the region head is handed. */
  function Headed(run: Result<seq<Shape>>, x0: Shape, found: bool): Result<Shape> {
    match run
    case Err(e) => Err(e)
    case Ok(outs) => if found then Ok(Current(x0, outs)) else Err(NoRegion)
  }

  function Current(x0: Shape, outs: seq<Shape>): Shape {
    if outs == [] then x0 else outs[|outs| - 1]
  }

  function RegionAt(layers: seq<Layer>): (k: nat)
    ensures k <= |layers|
    ensures k < |layers| ==> layers[k].RegionHead?
    ensures forall i :: 0 <= i < k ==> !layers[i].RegionHead?
  {
    if layers == [] || layers[0].RegionHead? then 0 else 1 + RegionAt(layers[1..])
  }

  /** forward: run up to the first region head and hand it the current tensor. */
  method Forward(layers: seq<Layer>, x0: Shape) returns (r: Result<Shape>)
    ensures r == Headed(Run(layers[..RegionAt(layers)], x0), x0, RegionAt(layers) < |layers|)
  {
    var x := x0;
    var outs: seq<Shape> := [];
    var i := 0;
    while i < |layers| && !layers[i].RegionHead?
      invariant i <= RegionAt(layers)
      invariant Run(layers[..i], x0) == Ok(outs) && x == Current(x0, outs)
    {
      assert layers[..i + 1][..i] == layers[..i];
      var step := RunLayer(layers[i], x, outs);
      if step.Err? {
        RunErrStays(layers, x0, i + 1, RegionAt(layers));
        return Err(step.error);
      }
      x := step.value;
      outs := outs + [x];
      i := i + 1;
    }
    r := if i < |layers| then Ok(x) else Err(NoRegion);
  }

  lemma {:induction false} RunErrStays(layers: seq<Layer>, x0: Shape, i: nat, k: nat)
    requires i <= k <= |layers| && Run(layers[..i], x0).Err?
    ensures Run(layers[..k], x0) == Err(Run(layers[..i], x0).error)
    decreases k - i
  {
    if i < k {
      assert layers[..i + 1][..i] == layers[..i];
      RunErrStays(layers, x0, i + 1, k);
    }
  }

  // ---- Channels agree --------------------------------------------------------------------------------

  /** Every route names earlier layers only, by either sign of reference. */
  ghost predicate RefsInRange(blocks: seq<Block>) {
    forall i :: 0 <= i < |blocks| && blocks[i].Route? ==>
      blocks[i].refs != [] && forall r :: r in blocks[i].refs ==> -i <= r < i
  }

  ghost predicate ChannelsMatch(outs: seq<Shape>, chans: seq<nat>) {
    |chans| == |outs| + 1 && forall i :: 0 <= i < |outs| ==> outs[i].c == chans[i + 1]
  }

  lemma {:induction false} CatChannels(outs: seq<Shape>, chans: seq<nat>, refs: seq<int>)
    requires ChannelsMatch(outs, chans) && refs != []
    requires forall r :: r in refs ==> -|outs| <= r < |outs|
    ensures Sum(chans, refs).Ok?
    ensures Cat(outs, refs).Ok? ==> Cat(outs, refs).value.c == Sum(chans, refs).value
    ensures Cat(outs, refs).Err? ==> Cat(outs, refs).error == SizeError
  {
    var n := |refs| - 1;
    assert refs[n] in refs;
    RouteRefExact(refs[n], |outs|);
    if n == 0 {
      assert refs[..n] == [];
      assert Sum(chans, refs[..n]) == Ok(0);
    } else {
      assert forall r :: r in refs[..n] ==> r in refs;
      CatChannels(outs, chans, refs[..n]);
    }
  }

  /** Main result: for every configuration whose routes name earlier layers, building succeeds, the channel
      count inferred for each layer is the channel count of the tensor met there when running, and no
      convolution ever meets a tensor with the wrong number of channels. */
  lemma {:induction false} InferredChannelsAreReal(blocks: seq<Block>, x0: Shape)
    requires RefsInRange(blocks)
    ensures var net := Build(x0.c, blocks);
            && net.Ok?
            && (Run(net.value.layers, x0).Ok? ==> ChannelsMatch(Run(net.value.layers, x0).value, net.value.chans))
            && (Run(net.value.layers, x0).Err? ==> Run(net.value.layers, x0).error == SizeError)
  {
    if blocks != [] {
      var n := |blocks| - 1;
      var before, b := blocks[..n], blocks[n];
      assert blocks == before + [b];
      assert RefsInRange(before);
      InferredChannelsAreReal(before, x0);
      var net := Build(x0.c, before).value;
      if b.Route? { SumInRange(net.chans, b.refs); }
      BuildSnoc(x0.c, before, b);
      var l := BuildBlock(b, net.chans).value.0;
      RunStep(net.layers, x0, l);
      if Run(net.layers, x0).Ok? {
        LayerChannels(b, Run(net.layers, x0).value, net.chans, x0, l);
      }
    }
  }

  lemma RunStep(layers: seq<Layer>, x0: Shape, l: Layer)
    ensures Run(layers + [l], x0) == Extended(Run(layers, x0), x0, l)
  {
    assert (layers + [l])[..|layers|] == layers;
  }

  lemma {:induction false} SumInRange(chans: seq<nat>, refs: seq<int>)
    requires forall r :: r in refs ==> -(|chans| - 1) <= r < |chans| - 1
    ensures Sum(chans, refs).Ok?
  {
    if refs != [] {
      var n := |refs| - 1;
      assert refs[n] in refs;
      assert forall r :: r in refs[..n] ==> r in refs;
      SumInRange(chans, refs[..n]);
    }
  }

  lemma LayerChannels(b: Block, outs: seq<Shape>, chans: seq<nat>, x0: Shape, l: Layer)
    requires ChannelsMatch(outs, chans) && chans[0] == x0.c
    requires BuildBlock(b, chans).Ok? && l == BuildBlock(b, chans).value.0
    requires b.Route? ==> b.refs != [] && forall r :: r in b.refs ==> -|outs| <= r < |outs|
    ensures var step := RunLayer(l, Current(x0, outs), outs);
            && (step.Ok? ==> step.value.c == BuildBlock(b, chans).value.1)
            && (step.Err? ==> step.error == SizeError)
  {
    if b.Route? { CatChannels(outs, chans, b.refs); }
  }

  /** The first layers and channel counts of a network are those of its first blocks. */
  lemma {:induction false} BuildPrefix(input: nat, blocks: seq<Block>, k: nat)
    requires Build(input, blocks).Ok? && k <= |blocks|
    ensures var net := Build(input, blocks).value;
            Build(input, blocks[..k]) == Ok(Net(net.layers[..k], net.chans[..k + 1]))
  {
    var net := Build(input, blocks).value;
    if k == |blocks| {
      assert blocks[..k] == blocks && net.layers[..k] == net.layers && net.chans[..k + 1] == net.chans;
    } else {
      var n := |blocks| - 1;
      var before := Build(input, blocks[..n]).value;
      BuildPrefix(input, blocks[..n], k);
      assert blocks[..n][..k] == blocks[..k];
      assert net.layers[..k] == before.layers[..k] && net.chans[..k + 1] == before.chans[..k + 1];
    }
  }

  /** So the executor, which stops at the first region head, fails only where the spatial sizes do not fit or there is
      no head, and hands the head a tensor with the channel count inferred for it. */
  lemma HeadChannelsAreReal(blocks: seq<Block>, x0: Shape)
    requires RefsInRange(blocks)
    ensures Build(x0.c, blocks).Ok?
    ensures var net := Build(x0.c, blocks).value;
            var k := RegionAt(net.layers);
            var r := Headed(Run(net.layers[..k], x0), x0, k < |net.layers|);
            && (r.Ok? ==> k < |net.layers| && r.value.c == net.chans[k])
            && (r.Err? ==> r.error == SizeError || (r.error == NoRegion && k == |net.layers|))
  {
    InferredChannelsAreReal(blocks, x0);
    var k := RegionAt(Build(x0.c, blocks).value.layers);
    BuildPrefix(x0.c, blocks, k);
    forall i | 0 <= i < |blocks[..k]| ensures blocks[..k][i] == blocks[i] {}
    InferredChannelsAreReal(blocks[..k], x0);
  }

  /** Outside the guard the promise fails: a route to one before the input builds with the input's channel
      count and runs on the last layer's tensor. */
  lemma RouteBeforeInput(x0: Shape, filters: nat)
    requires x0.c != filters && x0.h >= 1 && x0.w >= 1
    ensures var blocks := [Convolutional(filters, 1, 1, false, false), Route([-2])];
            && Build(x0.c, blocks).Ok?
            && Run(Build(x0.c, blocks).value.layers, x0).Ok?
            && !ChannelsMatch(Run(Build(x0.c, blocks).value.layers, x0).value, Build(x0.c, blocks).value.chans)
  {
    var b0, b1 := Convolutional(filters, 1, 1, false, false), Route([-2]);
    var l0, l1 := Conv(x0.c, filters, 1, 1, 0, false), Routed([-2]);
    var y := Shape(filters, x0.h, x0.w);
    assert [-2][..0] == [];
    assert Sum([x0.c, filters], []) == Ok(0);
    assert Sum([x0.c, filters], [-2]) == Ok(x0.c);
    assert Cat([y], [-2]) == Ok(y);
    assert [] + [b0] == [b0] && [b0] + [b1] == [b0, b1];
    assert [] + [l0] == [l0] && [l0] + [l1] == [l0, l1];
    assert [x0.c] + [filters] == [x0.c, filters] && [x0.c, filters] + [x0.c] == [x0.c, filters, x0.c];
    assert [] + [y] == [y] && [y] + [y] == [y, y];
    BuildSnoc(x0.c, [], b0);
    assert Build(x0.c, [b0]) == Ok(Net([l0], [x0.c, filters]));
    BuildSnoc(x0.c, [b0], b1);
    assert Build(x0.c, [b0, b1]) == Ok(Net([l0, l1], [x0.c, filters, x0.c]));
    RunStep([], x0, l0);
    assert Run([l0], x0) == Ok([y]);
    RunStep([l0], x0, l1);
    assert Run([l0, l1], x0) == Ok([y, y]);
    assert [y, y][1].c != [x0.c, filters, x0.c][2];
  }

  lemma BuildSnoc(input: nat, blocks: seq<Block>, b: Block)
    requires Build(input, blocks).Ok? && BuildBlock(b, Build(input, blocks).value.chans).Ok?
    ensures var net := Build(input, blocks).value;
            var (l, c) := BuildBlock(b, net.chans).value;
            Build(input, blocks + [b]) == Ok(Net(net.layers + [l], net.chans + [c]))
  {
    assert (blocks + [b])[..|blocks|] == blocks;
  }
}
