/** The weight file of a network: which float goes where. */
module Weights {
  import opened Arithmetic
  import opened Darknet

  /** The tensors of one layer: a norm in place of a bias when there is one. */
  datatype Tensors<T> =
    | Nothing
    | Biased(bias: seq<T>, kernel: seq<T>)
    | Normed(bias: seq<T>, scale: seq<T>, mean: seq<T>, variance: seq<T>, kernel: seq<T>)

  /** How many floats a layer has: a kernel for every pair of channels, and one bias or four norm values a filter. */
  function Floats(l: Layer): nat {
    match l
    case Conv(inC, filters, size, _, _, bn) => filters * (inC * (size * size) + (if bn then 4 else 1))
    case _ => 0
  }

  /** How many floats the layers before layer i have. */
  function Before(layers: seq<Layer>, i: nat): nat
    requires i <= |layers|
  {
    if i == 0 then 0 else Before(layers, i - 1) + Floats(layers[i - 1])
  }

  ghost predicate Slice<T>(part: seq<T>, buf: seq<T>, at: nat, n: nat) { at + n <= |buf| && part == buf[at..at + n] }

  /** The tensors of a layer are what the file holds from `at` on: for each filter a bias,
    then with a norm its scale, mean
      and variance, and then the kernel. */
  ghost predicate Read<T>(t: Tensors<T>, l: Layer, buf: seq<T>, at: nat) {
    match l
    case Conv(inC, n, size, _, _, true) =>
      && t.Normed? && Slice(t.bias, buf, at, n) && Slice(t.scale, buf, at + n, n) && Slice(t.mean, buf, at + 2 * n, n)
      && Slice(t.variance, buf, at + 3 * n, n) && Slice(t.kernel, buf, at + 4 * n, n * (inC * (size * size)))
    case Conv(inC, n, size, _, _, false) =>
      t.Biased? && Slice(t.bias, buf, at, n) && Slice(t.kernel, buf, at + n, n * (inC * (size * size)))
    case _ => t.Nothing?
  }

  /** take: buf[ptr : ptr + n], which comes short past the end of the file. */
  function Take<T>(buf: seq<T>, ptr: nat, n: nat): (r: seq<T>)
    ensures ptr + n <= |buf| ==> Slice(r, buf, ptr, n)
  {
    if ptr >= |buf| then [] else if ptr + n >= |buf| then buf[ptr..] else buf[ptr..ptr + n]
  }

  /** One turn of the loader's loop. */
  method LoadLayer<T>(l: Layer, buf: seq<T>, ptr: nat) returns (t: Tensors<T>, ptr': nat)
    ensures ptr' == ptr + Floats(l)
    ensures ptr' <= |buf| ==> Read(t, l, buf, ptr)
  {
    match l {
      case Conv(inC, filters, size, _, _, bn) =>
        var numel := filters * (inC * (size * size));
        FloatsSplit(filters, inC * (size * size));
        if bn {
          var bias, scale := Take(buf, ptr, filters), Take(buf, ptr + filters, filters);
          var mean, variance := Take(buf, ptr + 2 * filters, filters), Take(buf, ptr + 3 * filters, filters);
          var kernel := Take(buf, ptr + 4 * filters, numel);
          t, ptr' := Normed(bias, scale, mean, variance, kernel), ptr + 4 * filters + numel;
        } else {
          var bias, kernel := Take(buf, ptr, filters), Take(buf, ptr + filters, numel);
          t, ptr' := Biased(bias, kernel), ptr + filters + numel;
        }
      case _ => t, ptr' := Nothing, ptr;
    }
  }

  lemma FloatsSplit(filters: nat, k: nat)
    ensures filters * (k + 4) == 4 * filters + filters * k && filters * (k + 1) == filters + filters * k
    ensures filters * k >= 0
  {
  }

  /** The loader's walk over the layers. Loading succeeds exactly when the file holds as many floats as the layers have,
      and then every tensor is the stretch of the file that is its own. */
  method LoadWeights<T>(layers: seq<Layer>, buf: seq<T>) returns (ok: bool, out: seq<Tensors<T>>)
    ensures ok <==> |buf| == Before(layers, |layers|)
    ensures ok ==> |out| == |layers| && forall i :: 0 <= i < |layers| ==>
      Read(out[i], layers[i], buf, Before(layers, i))
  {
    var ptr: nat := 0;
    out := [];
    for i := 0 to |layers|
      invariant ptr == Before(layers, i) && |out| == i
      invariant ptr <= |buf| ==> forall j :: 0 <= j < i ==> Read(out[j], layers[j], buf, Before(layers, j))
    {
      var t, next := LoadLayer(layers[i], buf, ptr);
      out, ptr := out + [t], next;
    }
    ok := ptr == |buf|;
  }

  // ---- Nothing is lost ---------------------------------------------------------------------------------

  function Stored<T>(t: Tensors<T>): seq<T> {
    match t
    case Nothing => []
    case Biased(bias, kernel) => bias + kernel
    case Normed(bias, scale, mean, variance, kernel) => bias + scale + mean + variance + kernel
  }

  function StoredAll<T>(ts: seq<Tensors<T>>): seq<T> {
    if ts == [] then [] else StoredAll(ts[..|ts| - 1]) + Stored(ts[|ts| - 1])
  }

  lemma Joined<T>(a: seq<T>, b: seq<T>, buf: seq<T>, at: nat, m: nat, n: nat)
    requires Slice(a, buf, at, m) && Slice(b, buf, at + m, n)
    ensures Slice(a + b, buf, at, m + n)
  {
    assert buf[at..at + m] + buf[at + m..at + m + n] == buf[at..at + m + n];
  }

  lemma NormedStores<T>(t: Tensors<T>, buf: seq<T>, at: nat, n: nat, k: nat)
    requires t.Normed? && Slice(t.bias, buf, at, n) && Slice(t.scale, buf, at + n, n)
    requires Slice(t.mean, buf, at + 2 * n, n) && Slice(t.variance, buf, at + 3 * n, n)
    requires Slice(t.kernel, buf, at + 4 * n, k)
    ensures Slice(Stored(t), buf, at, 4 * n + k)
  {
    Joined(t.bias, t.scale, buf, at, n, n);
    Joined(t.bias + t.scale, t.mean, buf, at, 2 * n, n);
    Joined(t.bias + t.scale + t.mean, t.variance, buf, at, 3 * n, n);
    Joined(t.bias + t.scale + t.mean + t.variance, t.kernel, buf, at, 4 * n, k);
  }

  lemma ReadStores<T>(t: Tensors<T>, l: Layer, buf: seq<T>, at: nat)
    requires Read(t, l, buf, at) && at <= |buf|
    ensures Slice(Stored(t), buf, at, Floats(l))
  {
    match l
    case Conv(inC, n, size, _, _, bn) =>
      var k := n * (inC * (size * size));
      FloatsSplit(n, inC * (size * size));
      if bn { NormedStores(t, buf, at, n, k); } else { Joined(t.bias, t.kernel, buf, at, n, k); }
    case _ =>
  }

  lemma StoredLast<T>(ts: seq<Tensors<T>>, t: Tensors<T>)
    ensures StoredAll(ts + [t]) == StoredAll(ts) + Stored(t)
  {
    assert (ts + [t])[..|ts|] == ts;
  }

  lemma PrefixJoined<T>(a: seq<T>, b: seq<T>, buf: seq<T>, at: nat, n: nat)
    requires at <= |buf| && a == buf[..at] && Slice(b, buf, at, n)
    ensures a + b == buf[..at + n]
  {
  }

  /** The first tensors, written out, are the file up to there. */
  ghost predicate Returned<T>(layers: seq<Layer>, buf: seq<T>, out: seq<Tensors<T>>, n: nat)
    requires n <= |layers|
  {
    n <= |out| && Before(layers, n) <= |buf| && StoredAll(out[..n]) == buf[..Before(layers, n)]
  }

  lemma ReturnedStep<T>(layers: seq<Layer>, buf: seq<T>, out: seq<Tensors<T>>, n: nat)
    requires n < |layers| && n < |out| && Returned(layers, buf, out, n)
    requires Read(out[n], layers[n], buf, Before(layers, n)) && Before(layers, n + 1) <= |buf|
    ensures Returned(layers, buf, out, n + 1)
  {
    var at := Before(layers, n);
    ReadStores(out[n], layers[n], buf, at);
    assert out[..n + 1] == out[..n] + [out[n]];
    StoredLast(out[..n], out[n]);
    PrefixJoined(StoredAll(out[..n]), Stored(out[n]), buf, at, Floats(layers[n]));
  }

  /** Writing the loaded tensors out again, layer by layer, gives the file back: no float is skipped or read twice. */
  lemma {:induction false} LoadedIsFile<T>(layers: seq<Layer>, buf: seq<T>, out: seq<Tensors<T>>, n: nat)
    requires |out| == |layers| && n <= |layers| && Before(layers, n) <= |buf|
    requires forall i :: 0 <= i < n ==> Read(out[i], layers[i], buf, Before(layers, i))
    ensures Returned(layers, buf, out, n)
  {
    if n > 0 {
      var k := n - 1;
      LoadedIsFile(layers, buf, out, k);
      ReturnedNext(layers, buf, out, k, out[k], Before(layers, k));
    } else {
      assert out[..0] == [];
    }
  }

  lemma ReturnedNext<T>(layers: seq<Layer>, buf: seq<T>, out: seq<Tensors<T>>, k: nat, t: Tensors<T>, at: nat)
    requires k < |layers| && k < |out| && Returned(layers, buf, out, k) && t == out[k] && at == Before(layers, k)
    requires Read(t, layers[k], buf, at) && Before(layers, k + 1) <= |buf|
    ensures Returned(layers, buf, out, k + 1)
  {
    ReturnedStep(layers, buf, out, k);
  }
}
