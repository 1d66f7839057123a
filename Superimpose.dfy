/** Superimposition: each pair's two greyscale images become a cyan and a
    magenta layer apiece, the four layers are saved, and the two crossed
    composites go to the counterbalanced folders CB1 and CB2 by the parity
    of the pair's 1-based row number in `pairs.csv`. */
module Superimpose {
  import opened Optional
  import opened Text
  import opened Pairing

  /** A greyscale raster from `Image.open(...).convert('L')`. */
  type Grey = seq<seq<int>>

  datatype Rgba = Rgba(r: int, g: int, b: int, a: int)

  /** `np.ones((h, w, 4), dtype=np.uint8) * 255`, one pixel of it. */
  const Blank: Rgba := Rgba(255, 255, 255, 255)

  datatype Colour = Cyan | Magenta

  /** What is written: a layer's pixels, or the composite of two layers over
      a white background (PIL's blending itself is not modelled). */
  datatype Picture = Layer(px: seq<seq<Rgba>>) | OverWhite(first: seq<seq<Rgba>>, second: seq<seq<Rgba>>)

  /** The four output folders; CB1 and CB2 live under the combined folder. */
  datatype Outputs = Outputs(cyan: map<string, Picture>, magenta: map<string, Picture>,
                             cb1: map<string, Picture>, cb2: map<string, Picture>)

  datatype Failure = MissingSelection | BadAlpha | NoPairingsFile | LoadFailed(idx: nat) | SizeMismatch(idx: nat)

  datatype Outcome = Processed(count: nat) | Failed(why: Failure)

  /** Result of the run from some pair on: the folders and how it ended. */
  datatype Run = Run(out: Outputs, outcome: Outcome)

  // ---------------------------------------------------------------------
  // Alpha

  /** `get_alpha`, given what `float(text)` produced (`None` when the text
      does not parse or is NaN): accepted exactly when it lies in [0, 1]. */
  function GetAlpha(parsed: Option<real>): (r: Option<real>)
    ensures r.Some? <==> parsed.Some? && 0.0 <= parsed.value <= 1.0
    ensures r.Some? ==> r == parsed
  {
    if parsed.Some? && 0.0 <= parsed.value <= 1.0 then parsed else None
  }

  /** `int(255 * alpha)`: truncation toward zero, which for alpha in
      [0, 1] is the floor. */
  function AlphaByte(alpha: real): (r: nat)
    requires 0.0 <= alpha <= 1.0
    ensures r <= 255
    ensures r as real <= 255.0 * alpha < r as real + 1.0
    ensures alpha == 0.0 ==> r == 0
    ensures alpha == 1.0 ==> r == 255
  {
    (255.0 * alpha).Floor
  }

  // ---------------------------------------------------------------------
  // Pixels

  /** `intensity_arr < 0.5` for `intensity_arr = np.array(img) / 255.0`. */
  predicate Foreground(grey: int) {
    (grey as real) / 255.0 < 0.5
  }

  /** For whole grey levels the mask is the dark half of the range. */
  lemma ForegroundIff(grey: int)
    ensures Foreground(grey) <==> grey <= 127
  {
    if grey <= 127 {
      assert (grey as real) <= 127.0;
    } else {
      assert (grey as real) >= 128.0;
    }
  }

  /** One pixel of `make_cyan` or `make_magenta`. */
  function LayerPixel(colour: Colour, grey: int, alphaByte: int): (p: Rgba)
    ensures Foreground(grey) ==> p.a == alphaByte && p.b == 255
    ensures Foreground(grey) && colour == Cyan ==> p.r == 0 && p.g == 255
    ensures Foreground(grey) && colour == Magenta ==> p.r == 255 && p.g == 0
    ensures !Foreground(grey) ==> p == Rgba(255, 255, 255, 0)
  {
    if !Foreground(grey) then Blank.(a := 0)
    else if colour == Cyan then Rgba(0, 255, 255, alphaByte)
    else Rgba(255, 0, 255, alphaByte)
  }

  /** The cyan and magenta layers of one image share their mask: they are
      opaque at the same pixels, and there they are complementary in red
      and green. */
  lemma LayersShareMask(grey: int, alphaByte: int)
    ensures LayerPixel(Cyan, grey, alphaByte).a == LayerPixel(Magenta, grey, alphaByte).a
    ensures Foreground(grey) ==>
      LayerPixel(Cyan, grey, alphaByte).r + LayerPixel(Magenta, grey, alphaByte).r == 255 &&
      LayerPixel(Cyan, grey, alphaByte).g + LayerPixel(Magenta, grey, alphaByte).g == 255
  {
  }

  predicate Rectangular(img: Grey) {
    forall i :: 0 <= i < |img| ==> |img[i]| == Width(img)
  }

  function Width(img: Grey): nat {
    if img == [] then 0 else |img[0]|
  }

  /** `make_cyan(arr, alpha)` or `make_magenta(arr, alpha)` as values. */
  function LayerOf(colour: Colour, img: Grey, alphaByte: int): seq<seq<Rgba>> {
    seq(|img|, i requires 0 <= i < |img| =>
      seq(|img[i]|, j requires 0 <= j < |img[i]| => LayerPixel(colour, img[i][j], alphaByte)))
  }

  /** With alpha 0 every pixel of a layer is fully transparent. */
  lemma TransparentAtZero(colour: Colour, img: Grey, i: nat, j: nat)
    requires i < |img| && j < |img[i]|
    ensures LayerOf(colour, img, AlphaByte(0.0))[i][j].a == 0
  {
    assert AlphaByte(0.0) == 0;
  }

  function Pixels(a: array2<Rgba>): seq<seq<Rgba>>
    reads a
  {
    seq(a.Length0, i requires 0 <= i < a.Length0 reads a =>
      seq(a.Length1, j requires 0 <= j < a.Length1 reads a => a[i, j]))
  }

  /** `make_cyan` / `make_magenta`: a fresh buffer of opaque white, then the
      masked assignments, pixel by pixel. */
  method MakeLayer(img: Grey, colour: Colour, alphaByte: int) returns (rgba: array2<Rgba>)
    requires Rectangular(img)
    ensures fresh(rgba)
    ensures Pixels(rgba) == LayerOf(colour, img, alphaByte)
  {
    var h, w := |img|, Width(img);
    rgba := new Rgba[h, w]((i, j) => Blank);
    for i := 0 to h
      invariant forall i', j' :: 0 <= i' < i && 0 <= j' < w ==>
        rgba[i', j'] == LayerPixel(colour, img[i'][j'], alphaByte)
      invariant forall i', j' :: i <= i' < h && 0 <= j' < w ==> rgba[i', j'] == Blank
    {
      for j := 0 to w
        invariant forall i', j' :: 0 <= i' < i && 0 <= j' < w ==>
          rgba[i', j'] == LayerPixel(colour, img[i'][j'], alphaByte)
        invariant forall j' :: 0 <= j' < j ==> rgba[i, j'] == LayerPixel(colour, img[i][j'], alphaByte)
        invariant forall i', j' :: i <= i' < h && 0 <= j' < w && (i' > i || j' >= j) ==> rgba[i', j'] == Blank
      {
        if Foreground(img[i][j]) {
          rgba[i, j] := if colour == Cyan then Rgba(0, 255, 255, alphaByte) else Rgba(255, 0, 255, alphaByte);
        } else {
          rgba[i, j] := rgba[i, j].(a := 0);
        }
      }
    }
    forall i | 0 <= i < h ensures Pixels(rgba)[i] == LayerOf(colour, img, alphaByte)[i] {
      assert forall j :: 0 <= j < w ==> Pixels(rgba)[i][j] == LayerOf(colour, img, alphaByte)[i][j];
    }
  }

  // ---------------------------------------------------------------------
  // Names and routing

  /** `f"{idx}{suffix}"`. */
  function Name(idx: nat, suffix: string): string {
    DecimalOf(idx) + suffix
  }

  const ACyan: string := "_A_cyan.png"
  const BCyan: string := "_B_cyan.png"
  const AMagenta: string := "_A_magenta.png"
  const BMagenta: string := "_B_magenta.png"
  const ACyanBMagenta: string := "_A_cyan__B_magenta.png"
  const BCyanAMagenta: string := "_B_cyan__A_magenta.png"

  /** Output names never collide across pairs or across kinds: the number
      before the first `_` gives the pair back, and the rest the kind. */
  lemma NameInjective(i: nat, s: string, j: nat, t: string)
    requires s != [] && s[0] == '_' && t != [] && t[0] == '_'
    requires Name(i, s) == Name(j, t)
    ensures i == j && s == t
  {
    assert s == ['_'] + s[1..] && t == ['_'] + t[1..];
    assert Name(i, s) == DecimalOf(i) + ['_'] + s[1..];
    assert Name(j, t) == DecimalOf(j) + ['_'] + t[1..];
    BeforeJoin(DecimalOf(i), '_', s[1..]);
    BeforeJoin(DecimalOf(j), '_', t[1..]);
    DecimalOfInjective(i, j);
    assert s == Name(i, s)[|DecimalOf(i)|..];
  }

  /** The file pair `idx` leaves in CB1 and in CB2: for odd `idx` CB1 gets
      A in cyan under B in magenta and CB2 the other crossing; for even
      `idx` the two swap. */
  function Cb1Suffix(idx: nat): string {
    if idx % 2 == 1 then ACyanBMagenta else BCyanAMagenta
  }

  function Cb2Suffix(idx: nat): string {
    if idx % 2 == 1 then BCyanAMagenta else ACyanBMagenta
  }

  /** Each pair puts one file in each bucket, the two buckets get the two
      different crossings, and consecutive pairs swap them. */
  lemma RoutingBalanced(idx: nat)
    ensures {Cb1Suffix(idx), Cb2Suffix(idx)} == {ACyanBMagenta, BCyanAMagenta}
    ensures Cb1Suffix(idx) != Cb2Suffix(idx)
    ensures Cb1Suffix(idx) == Cb2Suffix(idx + 1)
  {
    assert ACyanBMagenta[1] != BCyanAMagenta[1];
  }

  /** The four layers of one pair: A and B in cyan, A and B in magenta. */
  datatype Layers = Layers(ac: seq<seq<Rgba>>, bc: seq<seq<Rgba>>, am: seq<seq<Rgba>>, bm: seq<seq<Rgba>>)

  function LayersOf(a: Grey, b: Grey, alphaByte: int): Layers {
    Layers(LayerOf(Cyan, a, alphaByte), LayerOf(Cyan, b, alphaByte),
           LayerOf(Magenta, a, alphaByte), LayerOf(Magenta, b, alphaByte))
  }

  /** The composite named by `suffix`: A in cyan under B in magenta, or B in
      cyan under A in magenta. */
  function Combo(suffix: string, l: Layers): Picture {
    if suffix == ACyanBMagenta then OverWhite(l.ac, l.bm) else OverWhite(l.bc, l.am)
  }

  predicate SameSize(a: Grey, b: Grey) {
    |a| == |b| && Width(a) == Width(b)
  }

  /** The four layer files of pair `idx`. */
  function Layered(out: Outputs, idx: nat, l: Layers): Outputs {
    out.(cyan := out.cyan[Name(idx, ACyan) := Layer(l.ac)][Name(idx, BCyan) := Layer(l.bc)],
         magenta := out.magenta[Name(idx, AMagenta) := Layer(l.am)][Name(idx, BMagenta) := Layer(l.bm)])
  }

  /** The two composites of pair `idx`, routed by its parity. */
  function Combined(out: Outputs, idx: nat, l: Layers): Outputs {
    out.(cb1 := out.cb1[Name(idx, Cb1Suffix(idx)) := Combo(Cb1Suffix(idx), l)],
         cb2 := out.cb2[Name(idx, Cb2Suffix(idx)) := Combo(Cb2Suffix(idx), l)])
  }

  predicate Loadable(p: Pair, inputs: map<string, Grey>) {
    p.man in inputs && p.natural in inputs
  }

  /** What a pair that loads and matches in size leaves behind. */
  function Written(out: Outputs, idx: nat, p: Pair, inputs: map<string, Grey>, alphaByte: int): Outputs
    requires Loadable(p, inputs)
  {
    var l := LayersOf(inputs[p.man], inputs[p.natural], alphaByte);
    Combined(Layered(out, idx, l), idx, l)
  }

  /** The loop of `run_all` from the pair at position `i` (row `i + 1`) on.
      It stops at the first pair with an image that cannot be opened, and
      at the first pair whose images differ in size, where
      `alpha_composite` refuses the layers after they have been saved;
      what earlier pairs wrote stays. */
  function RunFrom(pairs: seq<Pair>, i: nat, inputs: map<string, Grey>, alphaByte: int, out: Outputs): Run
    requires i <= |pairs|
    decreases |pairs| - i
  {
    if i == |pairs| then Run(out, Processed(|pairs|))
    else if !Loadable(pairs[i], inputs) then Run(out, Failed(LoadFailed(i + 1)))
    else if !SameSize(inputs[pairs[i].man], inputs[pairs[i].natural]) then
      Run(Layered(out, i + 1, LayersOf(inputs[pairs[i].man], inputs[pairs[i].natural], alphaByte)),
          Failed(SizeMismatch(i + 1)))
    else RunFrom(pairs, i + 1, inputs, alphaByte, Written(out, i + 1, pairs[i], inputs, alphaByte))
  }

  /** `run_all`: the selections are checked first, then alpha, then the
      pairings file is read, and only then is any image opened. */
  function RunAllSpec(selected: bool, alphaText: Option<real>, csv: Option<seq<Pair>>,
                      inputs: map<string, Grey>, out: Outputs): Run {
    if !selected then Run(out, Failed(MissingSelection))
    else if GetAlpha(alphaText).None? then Run(out, Failed(BadAlpha))
    else if csv.None? then Run(out, Failed(NoPairingsFile))
    else RunFrom(csv.value, 0, inputs, AlphaByte(GetAlpha(alphaText).value), out)
  }

  /** How a run from pair `i` can end: with every pair processed, or at
      a later pair that could not be opened or whose images differ in size. */
  lemma {:induction false} RunFromOutcomes(pairs: seq<Pair>, i: nat, inputs: map<string, Grey>,
                                           alphaByte: int, out: Outputs)
    requires i <= |pairs|
    ensures var r := RunFrom(pairs, i, inputs, alphaByte, out);
      || r.outcome == Processed(|pairs|)
      || (r.outcome.Failed? && r.outcome.why.LoadFailed? && i < r.outcome.why.idx <= |pairs|)
      || (r.outcome.Failed? && r.outcome.why.SizeMismatch? && i < r.outcome.why.idx <= |pairs|)
    decreases |pairs| - i
  {
    if i < |pairs| && Loadable(pairs[i], inputs) && SameSize(inputs[pairs[i].man], inputs[pairs[i].natural]) {
      var next := Written(out, i + 1, pairs[i], inputs, alphaByte);
      assert RunFrom(pairs, i, inputs, alphaByte, out) == RunFrom(pairs, i + 1, inputs, alphaByte, next);
      RunFromOutcomes(pairs, i + 1, inputs, alphaByte, next);
    }
  }

  /** The selections, alpha and the pairings file are checked, in that
      order, before any image is opened; a failed check writes nothing. */
  lemma ChecksBeforeWrites(selected: bool, alphaText: Option<real>, csv: Option<seq<Pair>>,
                           inputs: map<string, Grey>, out: Outputs)
    ensures var r := RunAllSpec(selected, alphaText, csv, inputs, out);
      r.outcome == Failed(MissingSelection) <==> !selected
    ensures var r := RunAllSpec(selected, alphaText, csv, inputs, out);
      r.outcome == Failed(BadAlpha) <==> selected && !(alphaText.Some? && 0.0 <= alphaText.value <= 1.0)
    ensures var r := RunAllSpec(selected, alphaText, csv, inputs, out);
      r.outcome == Failed(NoPairingsFile) <==> selected && GetAlpha(alphaText).Some? && csv.None?
    ensures var r := RunAllSpec(selected, alphaText, csv, inputs, out);
      r.outcome in {Failed(MissingSelection), Failed(BadAlpha), Failed(NoPairingsFile)} ==> r.out == out
  {
    if selected && GetAlpha(alphaText).Some? && csv.Some? {
      RunFromOutcomes(csv.value, 0, inputs, AlphaByte(GetAlpha(alphaText).value), out);
    }
  }

  /** A run from pair `i` that completes has written, for every later pair,
      the pair's two composites under their own names in the right bucket. */
  lemma {:induction false} RunFromRouting(pairs: seq<Pair>, i: nat, inputs: map<string, Grey>,
                                          alphaByte: int, out: Outputs, k: nat)
    requires i <= k < |pairs|
    requires RunFrom(pairs, i, inputs, alphaByte, out).outcome.Processed?
    ensures Loadable(pairs[k], inputs)
    ensures var r := RunFrom(pairs, i, inputs, alphaByte, out).out;
      var l := LayersOf(inputs[pairs[k].man], inputs[pairs[k].natural], alphaByte);
      var idx := k + 1;
      && Name(idx, Cb1Suffix(idx)) in r.cb1 && r.cb1[Name(idx, Cb1Suffix(idx))] == Combo(Cb1Suffix(idx), l)
      && Name(idx, Cb2Suffix(idx)) in r.cb2 && r.cb2[Name(idx, Cb2Suffix(idx))] == Combo(Cb2Suffix(idx), l)
    decreases |pairs| - i
  {
    assert Loadable(pairs[i], inputs) && SameSize(inputs[pairs[i].man], inputs[pairs[i].natural]);
    var next := Written(out, i + 1, pairs[i], inputs, alphaByte);
    assert RunFrom(pairs, i, inputs, alphaByte, out) == RunFrom(pairs, i + 1, inputs, alphaByte, next);
    if k == i {
      LaterPairsKeep(pairs, i + 1, inputs, alphaByte, next, i + 1);
    } else {
      RunFromRouting(pairs, i + 1, inputs, alphaByte, next, k);
    }
  }

  /** Writing pair `j` leaves the composites of any other pair alone. */
  lemma WrittenKeeps(out: Outputs, j: nat, p: Pair, inputs: map<string, Grey>, alphaByte: int, idx: nat)
    requires Loadable(p, inputs) && idx != j
    ensures var r := Written(out, j, p, inputs, alphaByte);
      && (Name(idx, Cb1Suffix(idx)) in out.cb1 ==>
            Name(idx, Cb1Suffix(idx)) in r.cb1 && r.cb1[Name(idx, Cb1Suffix(idx))] == out.cb1[Name(idx, Cb1Suffix(idx))])
      && (Name(idx, Cb2Suffix(idx)) in out.cb2 ==>
            Name(idx, Cb2Suffix(idx)) in r.cb2 && r.cb2[Name(idx, Cb2Suffix(idx))] == out.cb2[Name(idx, Cb2Suffix(idx))])
  {
    if Name(idx, Cb1Suffix(idx)) == Name(j, Cb1Suffix(j)) {
      NameInjective(idx, Cb1Suffix(idx), j, Cb1Suffix(j));
    }
    if Name(idx, Cb2Suffix(idx)) == Name(j, Cb2Suffix(j)) {
      NameInjective(idx, Cb2Suffix(idx), j, Cb2Suffix(j));
    }
  }

  /** Later pairs never overwrite the composites of pair `idx`. */
  lemma {:induction false} LaterPairsKeep(pairs: seq<Pair>, i: nat, inputs: map<string, Grey>,
                                          alphaByte: int, out: Outputs, idx: nat)
    requires i <= |pairs| && 1 <= idx <= i
    ensures var r := RunFrom(pairs, i, inputs, alphaByte, out).out;
      && (Name(idx, Cb1Suffix(idx)) in out.cb1 ==>
            Name(idx, Cb1Suffix(idx)) in r.cb1 && r.cb1[Name(idx, Cb1Suffix(idx))] == out.cb1[Name(idx, Cb1Suffix(idx))])
      && (Name(idx, Cb2Suffix(idx)) in out.cb2 ==>
            Name(idx, Cb2Suffix(idx)) in r.cb2 && r.cb2[Name(idx, Cb2Suffix(idx))] == out.cb2[Name(idx, Cb2Suffix(idx))])
    decreases |pairs| - i
  {
    if i < |pairs| && Loadable(pairs[i], inputs) && SameSize(inputs[pairs[i].man], inputs[pairs[i].natural]) {
      var next := Written(out, i + 1, pairs[i], inputs, alphaByte);
      assert RunFrom(pairs, i, inputs, alphaByte, out) == RunFrom(pairs, i + 1, inputs, alphaByte, next);
      WrittenKeeps(out, i + 1, pairs[i], inputs, alphaByte, idx);
      LaterPairsKeep(pairs, i + 1, inputs, alphaByte, next, idx);
    }
  }

  /** Pair `idx`'s four layer files hold the layers `l`. */
  predicate LayersAt(out: Outputs, idx: nat, l: Layers) {
    && Name(idx, ACyan) in out.cyan && out.cyan[Name(idx, ACyan)] == Layer(l.ac)
    && Name(idx, BCyan) in out.cyan && out.cyan[Name(idx, BCyan)] == Layer(l.bc)
    && Name(idx, AMagenta) in out.magenta && out.magenta[Name(idx, AMagenta)] == Layer(l.am)
    && Name(idx, BMagenta) in out.magenta && out.magenta[Name(idx, BMagenta)] == Layer(l.bm)
  }

  /** Files of two different pairs never share a name. */
  lemma OtherPairName(idx: nat, s: string, j: nat, t: string)
    requires s != [] && s[0] == '_' && t != [] && t[0] == '_'
    requires idx != j
    ensures Name(idx, s) != Name(j, t)
  {
    if Name(idx, s) == Name(j, t) {
      NameInjective(idx, s, j, t);
    }
  }

  /** Writing the layers or the composites of pair `j` leaves the layers
      of any other pair alone. */
  lemma WrittenKeepsLayers(out: Outputs, j: nat, l': Layers, idx: nat, l: Layers)
    requires idx != j && LayersAt(out, idx, l)
    ensures LayersAt(Layered(out, j, l'), idx, l)
    ensures LayersAt(Combined(Layered(out, j, l'), j, l'), idx, l)
  {
    OtherPairName(idx, ACyan, j, ACyan);
    OtherPairName(idx, ACyan, j, BCyan);
    OtherPairName(idx, BCyan, j, ACyan);
    OtherPairName(idx, BCyan, j, BCyan);
    OtherPairName(idx, AMagenta, j, AMagenta);
    OtherPairName(idx, AMagenta, j, BMagenta);
    OtherPairName(idx, BMagenta, j, AMagenta);
    OtherPairName(idx, BMagenta, j, BMagenta);
  }

  /** Pair `j`'s own layer files hold its four layers once it is written. */
  lemma WrittenHasLayers(out: Outputs, j: nat, p: Pair, inputs: map<string, Grey>, alphaByte: int)
    requires Loadable(p, inputs)
    ensures LayersAt(Written(out, j, p, inputs, alphaByte), j, LayersOf(inputs[p.man], inputs[p.natural], alphaByte))
  {
    if Name(j, ACyan) == Name(j, BCyan) {
      NameInjective(j, ACyan, j, BCyan);
    }
    if Name(j, AMagenta) == Name(j, BMagenta) {
      NameInjective(j, AMagenta, j, BMagenta);
    }
  }

  /** Later pairs, however the run ends, never overwrite the layers of pair `idx`. */
  lemma {:induction false} LaterPairsKeepLayers(pairs: seq<Pair>, i: nat, inputs: map<string, Grey>,
                                                alphaByte: int, out: Outputs, idx: nat, l: Layers)
    requires i <= |pairs| && 1 <= idx <= i && LayersAt(out, idx, l)
    ensures LayersAt(RunFrom(pairs, i, inputs, alphaByte, out).out, idx, l)
    decreases |pairs| - i
  {
    if i < |pairs| && Loadable(pairs[i], inputs) {
      var l' := LayersOf(inputs[pairs[i].man], inputs[pairs[i].natural], alphaByte);
      WrittenKeepsLayers(out, i + 1, l', idx, l);
      if SameSize(inputs[pairs[i].man], inputs[pairs[i].natural]) {
        var next := Written(out, i + 1, pairs[i], inputs, alphaByte);
        assert RunFrom(pairs, i, inputs, alphaByte, out) == RunFrom(pairs, i + 1, inputs, alphaByte, next);
        LaterPairsKeepLayers(pairs, i + 1, inputs, alphaByte, next, idx, l);
      }
    }
  }

  /** A run from pair `i` that completes has written, for every later pair,
      A and B in cyan to the cyan folder and A and B in magenta to the
      magenta folder, each under the pair's own name. */
  lemma {:induction false} RunFromLayers(pairs: seq<Pair>, i: nat, inputs: map<string, Grey>,
                                         alphaByte: int, out: Outputs, k: nat)
    requires i <= k < |pairs|
    requires RunFrom(pairs, i, inputs, alphaByte, out).outcome.Processed?
    ensures Loadable(pairs[k], inputs)
    ensures var r := RunFrom(pairs, i, inputs, alphaByte, out).out;
      LayersAt(r, k + 1, LayersOf(inputs[pairs[k].man], inputs[pairs[k].natural], alphaByte))
    decreases |pairs| - i
  {
    assert Loadable(pairs[i], inputs) && SameSize(inputs[pairs[i].man], inputs[pairs[i].natural]);
    var next := Written(out, i + 1, pairs[i], inputs, alphaByte);
    assert RunFrom(pairs, i, inputs, alphaByte, out) == RunFrom(pairs, i + 1, inputs, alphaByte, next);
    if k == i {
      var l := LayersOf(inputs[pairs[i].man], inputs[pairs[i].natural], alphaByte);
      WrittenHasLayers(out, i + 1, pairs[i], inputs, alphaByte);
      LaterPairsKeepLayers(pairs, i + 1, inputs, alphaByte, next, i + 1, l);
    } else {
      RunFromLayers(pairs, i + 1, inputs, alphaByte, next, k);
    }
  }

  /** A run that stops at pair `idx` because an image cannot be opened
      leaves exactly what the pairs before it wrote, and those pairs all
      went through. */
  lemma {:induction false} StopsAtLoadFailure(pairs: seq<Pair>, i: nat, inputs: map<string, Grey>,
                                              alphaByte: int, out: Outputs)
    requires i <= |pairs|
    ensures var r := RunFrom(pairs, i, inputs, alphaByte, out);
      r.outcome.Failed? && r.outcome.why.LoadFailed? ==>
        var idx := r.outcome.why.idx;
        && i < idx <= |pairs|
        && !Loadable(pairs[idx - 1], inputs)
        && RunFrom(pairs[..idx - 1], i, inputs, alphaByte, out) == Run(r.out, Processed(idx - 1))
    decreases |pairs| - i
  {
    var r := RunFrom(pairs, i, inputs, alphaByte, out);
    if i < |pairs| && r.outcome.Failed? && r.outcome.why.LoadFailed? {
      var idx := r.outcome.why.idx;
      if !Loadable(pairs[i], inputs) {
        assert idx == i + 1 && r.out == out;
        assert |pairs[..idx - 1]| == i;
      } else {
        assert SameSize(inputs[pairs[i].man], inputs[pairs[i].natural]);
        var next := Written(out, i + 1, pairs[i], inputs, alphaByte);
        assert r == RunFrom(pairs, i + 1, inputs, alphaByte, next);
        StopsAtLoadFailure(pairs, i + 1, inputs, alphaByte, next);
        var pre := pairs[..idx - 1];
        assert i < |pre| && pre[i] == pairs[i];
        assert Written(out, i + 1, pre[i], inputs, alphaByte) == next;
        assert RunFrom(pre, i, inputs, alphaByte, out) == RunFrom(pre, i + 1, inputs, alphaByte, next);
      }
    }
  }

  // ---------------------------------------------------------------------

  /** The superimposition window: the pairs read by the last run and the
      contents of the four output folders. */
  class Superimposer {
    var pairings: seq<Pair>
    var out: Outputs

    constructor (folders: Outputs)
      ensures pairings == [] && out == folders
    {
      pairings := [];
      out := folders;
    }

    /** `run_all`. The images of the input folder are `inputs`, each a
        rectangular raster as PIL delivers it. */
    method RunAll(selected: bool, alphaText: Option<real>, csv: Option<seq<Pair>>,
                  inputs: map<string, Grey>) returns (outcome: Outcome)
      requires forall f :: f in inputs ==> Rectangular(inputs[f])
      modifies this
      ensures var r := RunAllSpec(selected, alphaText, csv, inputs, old(out));
        out == r.out && outcome == r.outcome
      ensures pairings == if selected && GetAlpha(alphaText).Some? && csv.Some? then csv.value else old(pairings)
    {
      if !selected {
        return Failed(MissingSelection);
      }
      var alpha := GetAlpha(alphaText);
      if alpha.None? {
        return Failed(BadAlpha);
      }
      if csv.None? {
        return Failed(NoPairingsFile);
      }
      pairings := csv.value;
      var alphaByte := AlphaByte(alpha.value);
      ghost var spec := RunFrom(pairings, 0, inputs, alphaByte, out);
      var i := 0;
      while i < |pairings|
        invariant pairings == csv.value && i <= |pairings|
        invariant RunFrom(pairings, i, inputs, alphaByte, out) == spec
      {
        var idx := i + 1;
        var aName, bName := pairings[i].man, pairings[i].natural;
        if aName !in inputs || bName !in inputs {
          return Failed(LoadFailed(idx));
        }
        var a, b := inputs[aName], inputs[bName];
        var aCyan := MakeLayer(a, Cyan, alphaByte);
        var bMagenta := MakeLayer(b, Magenta, alphaByte);
        var bCyan := MakeLayer(b, Cyan, alphaByte);
        var aMagenta := MakeLayer(a, Magenta, alphaByte);
        var layers := Layers(Pixels(aCyan), Pixels(bCyan), Pixels(aMagenta), Pixels(bMagenta));
        assert layers == LayersOf(a, b, alphaByte);
        SaveLayers(idx, layers);
        if !SameSize(a, b) {
          return Failed(SizeMismatch(idx));
        }
        SaveCombos(idx, layers);
        i := i + 1;
      }
      outcome := Processed(|pairings|);
    }

    /** The four `save` calls into the cyan and magenta folders. */
    method SaveLayers(idx: nat, l: Layers)
      modifies this`out
      ensures out == Layered(old(out), idx, l)
    {
      out := out.(cyan := out.cyan[Name(idx, ACyan) := Layer(l.ac)][Name(idx, BCyan) := Layer(l.bc)]);
      out := out.(magenta := out.magenta[Name(idx, AMagenta) := Layer(l.am)][Name(idx, BMagenta) := Layer(l.bm)]);
    }

    /** The two composites, routed by the parity of `idx`. */
    method SaveCombos(idx: nat, l: Layers)
      modifies this`out
      ensures out == Combined(old(out), idx, l)
    {
      var combo1, combo2 := OverWhite(l.ac, l.bm), OverWhite(l.bc, l.am);
      if idx % 2 == 1 {
        out := out.(cb1 := out.cb1[Name(idx, ACyanBMagenta) := combo1], cb2 := out.cb2[Name(idx, BCyanAMagenta) := combo2]);
      } else {
        out := out.(cb1 := out.cb1[Name(idx, BCyanAMagenta) := combo2], cb2 := out.cb2[Name(idx, ACyanBMagenta) := combo1]);
      }
    }
  }
}
