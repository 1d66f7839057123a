/** The experiment builder (rename.py): every greyscale and Mooney `.jpg`
    and every composite `.png` of the two counterbalance folders is copied
    into the experiment folder under a name that says what it is. */
module Rename {
  import opened Optional
  import opened Text
  import Superimpose

  const GreyPrefix: string := "1_greyscale_"
  const MooneyPrefix: string := "2_mooney_"
  const SuperPrefix: string := "3_super_"
  const Jpg: string := ".jpg"
  const Png: string := ".png"
  const Cb1: string := "CB1"
  const Cb2: string := "CB2"

  /** The folder a copied file comes from. */
  datatype Tag = Greyscale | Mooney | Composite(cb: string)

  /** The file a copy reads: its folder and its listed name. */
  datatype Origin = Origin(tag: Tag, name: string)

  /** One entry of the copy list: the new name and the file it copies. */
  datatype Job = Job(newName: string, origin: Origin)

  /** The superimposed folder: the listing of `CB1` and of `CB2`, `None`
      where that sub-folder is not a directory. */
  datatype Superimposed = Superimposed(cb1: Option<seq<string>>, cb2: Option<seq<string>>)

  /** The extension a folder's files must end with, compared case-sensitively. */
  function Ext(tag: Tag): string {
    if tag.Composite? then Png else Jpg
  }

  /** The experiment name of a listed file. */
  function NewName(tag: Tag, f: string): string {
    match tag
    case Greyscale => GreyPrefix + f
    case Mooney => MooneyPrefix + f
    case Composite(cb) => SuperPrefix + cb + "_" + Before(f, '_') + Png
  }

  function JobFor(tag: Tag, f: string): Job {
    Job(NewName(tag, f), Origin(tag, f))
  }

  /** One folder's listing loop: the files with the folder's extension,
      in listing order. */
  function Collect(listing: seq<string>, tag: Tag): seq<Job>
    decreases |listing|
  {
    if listing == [] then []
    else
      var f := listing[|listing| - 1];
      Collect(listing[..|listing| - 1], tag) + (if EndsWith(f, Ext(tag)) then [JobFor(tag, f)] else [])
  }

  /** A folder contributes exactly one job per listed file with its
      extension, and nothing else. */
  lemma {:induction false} CollectSpec(listing: seq<string>, tag: Tag)
    ensures forall f :: f in listing && EndsWith(f, Ext(tag)) ==> JobFor(tag, f) in Collect(listing, tag)
    ensures forall j :: j in Collect(listing, tag) ==>
      j.origin.tag == tag && j.origin.name in listing && EndsWith(j.origin.name, Ext(tag)) &&
      j == JobFor(tag, j.origin.name)
    ensures |Collect(listing, tag)| <= |listing|
    decreases |listing|
  {
    if listing != [] {
      var init := listing[..|listing| - 1];
      CollectSpec(init, tag);
      assert listing == init + [listing[|listing| - 1]];
    }
  }

  /** The extension test is case-sensitive: upper-case extensions are skipped. */
  lemma UpperCaseSkipped()
    ensures Collect(["cat.JPG"], Greyscale) == []
    ensures Collect(["12_A_cyan__B_magenta.PNG"], Composite(Cb1)) == []
  {
    assert ["cat.JPG"][..0] == [];
    assert "cat.JPG"[3..] == ".JPG";
    assert ["12_A_cyan__B_magenta.PNG"][..0] == [];
    assert "12_A_cyan__B_magenta.PNG"[20..] == ".PNG";
  }

  /** A counterbalance folder that is not a directory contributes nothing. */
  function CbJobs(listing: Option<seq<string>>, cb: string): seq<Job> {
    if listing.None? then [] else Collect(listing.value, Composite(cb))
  }

  /** The full copy list: greyscale, then Mooney, then CB1, then CB2. */
  function Jobs(grey: seq<string>, mooney: seq<string>, sup: Superimposed): seq<Job> {
    Collect(grey, Greyscale) + Collect(mooney, Mooney) + CbJobs(sup.cb1, Cb1) + CbJobs(sup.cb2, Cb2)
  }

  /** The copy loop: each job copies onto its new name, a later job
      overwriting an earlier one of the same name. */
  function Applied(dir: map<string, Origin>, jobs: seq<Job>): map<string, Origin>
    decreases |jobs|
  {
    if jobs == [] then dir else Applied(dir[jobs[0].newName := jobs[0].origin], jobs[1..])
  }

  predicate DistinctNames(jobs: seq<Job>) {
    forall i, j :: 0 <= i < j < |jobs| ==> jobs[i].newName != jobs[j].newName
  }

  /** The experiment folder holds what it held plus one file per new
      name; when the new names are distinct, each holds its own job's file. */
  lemma {:induction false} AppliedSpec(dir: map<string, Origin>, jobs: seq<Job>)
    ensures forall k :: k in Applied(dir, jobs) <==> k in dir || exists j :: j in jobs && j.newName == k
    ensures DistinctNames(jobs) ==> forall j :: j in jobs ==> Applied(dir, jobs)[j.newName] == j.origin
    ensures forall k :: k in dir && (forall j :: j in jobs ==> j.newName != k) ==> Applied(dir, jobs)[k] == dir[k]
    decreases |jobs|
  {
    if jobs != [] {
      var next := dir[jobs[0].newName := jobs[0].origin];
      AppliedSpec(next, jobs[1..]);
      assert forall j :: j in jobs ==> j == jobs[0] || j in jobs[1..];
      if DistinctNames(jobs) {
        assert DistinctNames(jobs[1..]);
        forall j | j in jobs[1..] ensures j.newName != jobs[0].newName {
          var m :| 0 <= m < |jobs[1..]| && jobs[1..][m] == j;
          assert jobs[m + 1] == j;
        }
      }
    }
  }

  /** The three kinds of experiment file never share a name. */
  lemma KindsNeverCollide(f: string, g: string, cb: string)
    ensures NewName(Greyscale, f) != NewName(Mooney, g)
    ensures NewName(Greyscale, f) != NewName(Composite(cb), g)
    ensures NewName(Mooney, f) != NewName(Composite(cb), g)
  {
    assert NewName(Greyscale, f)[0] == '1';
    assert NewName(Mooney, g)[0] == '2';
    assert NewName(Mooney, f)[0] == '2';
    assert NewName(Composite(cb), g)[0] == '3';
  }

  /** Greyscale and Mooney names keep the listed name whole, so distinct
      files of one folder get distinct names. */
  lemma PrefixedNamesInjective(tag: Tag, f: string, g: string)
    requires !tag.Composite? && NewName(tag, f) == NewName(tag, g)
    ensures f == g
  {
    var p := if tag.Greyscale? then GreyPrefix else MooneyPrefix;
    assert NewName(tag, f) == p + f && NewName(tag, g) == p + g;
    assert f == (p + f)[|p|..];
  }

  /** A composite written by the superimposition stage keeps only its pair
      number: `<n>_A_cyan__B_magenta.png` in CB1 becomes
      `3_super_CB1_<n>.png`. */
  lemma CompositeName(cb: string, idx: nat, suffix: string)
    requires suffix != [] && suffix[0] == '_'
    ensures NewName(Composite(cb), Superimpose.Name(idx, suffix)) == SuperPrefix + cb + "_" + DecimalOf(idx) + Png
  {
    var d := DecimalOf(idx);
    assert '_' !in d;
    assert Superimpose.Name(idx, suffix) == d + ['_'] + suffix[1..];
    BeforeJoin(d, '_', suffix[1..]);
  }

  /** So composites of distinct pairs in one counterbalance folder are
      copied to distinct names. */
  lemma CompositeNamesInjective(cb: string, i: nat, s: string, j: nat, t: string)
    requires s != [] && s[0] == '_' && t != [] && t[0] == '_'
    requires NewName(Composite(cb), Superimpose.Name(i, s)) == NewName(Composite(cb), Superimpose.Name(j, t))
    ensures i == j
  {
    CompositeName(cb, i, s);
    CompositeName(cb, j, t);
    var p := SuperPrefix + cb + "_";
    var a, b := p + DecimalOf(i) + Png, p + DecimalOf(j) + Png;
    assert DecimalOf(i) == a[|p|..|a| - |Png|];
    assert DecimalOf(j) == b[|p|..|b| - |Png|];
    DecimalOfInjective(i, j);
  }

  /** The experiment-builder window's effect on the experiment folder. */
  class ExperimentBuilder {
    var output: map<string, Origin>
    var progressMax: nat
    var progressValue: nat

    constructor(existing: map<string, Origin>)
      ensures output == existing && progressMax == 0 && progressValue == 0
    {
      output := existing;
      progressMax := 0;
      progressValue := 0;
    }

    /** `build_experiment`: the listings of the chosen folders (`None` for a
        folder not chosen) and whether an output folder was chosen. Returns
        whether the build ran. */
    method BuildExperiment(grey: Option<seq<string>>, mooney: Option<seq<string>>,
                           sup: Option<Superimposed>, outputChosen: bool)
      returns (built: bool)
      modifies this
      ensures built <==> grey.Some? && mooney.Some? && sup.Some? && outputChosen
      ensures !built ==>
        output == old(output) && progressMax == old(progressMax) && progressValue == old(progressValue)
      ensures built ==>
        var jobs := Jobs(grey.value, mooney.value, sup.value);
        output == Applied(old(output), jobs) && progressMax == |jobs| && progressValue == |jobs|
    {
      if grey.None? || mooney.None? || sup.None? || !outputChosen {
        return false;
      }
      var all: seq<Job> := [];
      all := Gather(all, grey.value, Greyscale);
      all := Gather(all, mooney.value, Mooney);
      all := GatherComposites(all, sup.value);
      assert all == Jobs(grey.value, mooney.value, sup.value);
      progressMax := |all|;
      progressValue := 0;
      CopyAll(all);
      built := true;
    }

    /** The loop over the two counterbalance folders. */
    method GatherComposites(acc: seq<Job>, sup: Superimposed) returns (all: seq<Job>)
      ensures all == acc + CbJobs(sup.cb1, Cb1) + CbJobs(sup.cb2, Cb2)
    {
      var cbs := [(Cb1, sup.cb1), (Cb2, sup.cb2)];
      all := acc;
      var k := 0;
      while k < 2
        invariant 0 <= k <= 2
        invariant k == 0 ==> all == acc
        invariant k == 1 ==> all == acc + CbJobs(sup.cb1, Cb1)
        invariant k == 2 ==> all == acc + CbJobs(sup.cb1, Cb1) + CbJobs(sup.cb2, Cb2)
      {
        var (cb, listing) := cbs[k];
        if listing.Some? {
          all := Gather(all, listing.value, Composite(cb));
        }
        k := k + 1;
      }
    }

    /** The copy loop, the progress bar at `i + 1` after copy `i`. */
    method CopyAll(all: seq<Job>)
      modifies this`output, this`progressValue
      ensures output == Applied(old(output), all)
      ensures progressValue == |all|
    {
      var i := 0;
      progressValue := 0;
      while i < |all|
        invariant 0 <= i <= |all|
        invariant Applied(output, all[i..]) == Applied(old(output), all)
        invariant progressValue == i
      {
        assert all[i..][0] == all[i] && all[i..][1..] == all[i + 1..];
        output := output[all[i].newName := all[i].origin];
        progressValue := i + 1;
        i := i + 1;
      }
    }
  }

  /** One folder's listing loop, appending to the copy list. */
  method Gather(acc: seq<Job>, listing: seq<string>, tag: Tag) returns (all: seq<Job>)
    ensures all == acc + Collect(listing, tag)
  {
    all := acc;
    var i := 0;
    while i < |listing|
      invariant 0 <= i <= |listing|
      invariant all == acc + Collect(listing[..i], tag)
    {
      var f := listing[i];
      assert listing[..i + 1][..i] == listing[..i];
      if EndsWith(f, Ext(tag)) {
        all := all + [JobFor(tag, f)];
      }
      i := i + 1;
    }
    assert listing[..i] == listing;
  }
}
