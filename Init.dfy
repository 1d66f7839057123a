/** The initialisation stage (init.py): the centred square crop, the check
    of the two chosen source folders, and the copy of every photo into
    `1_source_images` under an `a_`/`b_` half and a `man`/`nat` kind. */
module Init {
  import opened Optional
  import opened Text
  import opened Rng
  import Pairing

  const SourceDir: string := "1_source_images"
  /** The stage folders created once the copies are done. */
  const RequiredFolders: seq<string> :=
    ["2_grey", "3_mooney", "4_super_pairings", "5_cyan", "6_magenta", "7_superimposed", "8_experiment"]
  const Man: string := "man"
  const Nat: string := "nat"

  /** A photo in a chosen folder: its listed name and its pixel size. */
  datatype Photo = Photo(name: string, width: nat, height: nat)

  /** The `(left, top, right, bottom)` rectangle handed to `Image.crop`. */
  datatype Box = Box(left: int, top: int, right: int, bottom: int)

  /** What `1_source_images` holds under a name: the photo it was copied
      from, its kind, the crop box and the side it was resized to. */
  datatype Square = Square(origin: string, kind: string, box: Box, side: nat)

  /** A chosen folder: `None` when it was not chosen or does not exist. */
  datatype Candidate = Candidate(kind: string, folder: Option<seq<Photo>>)
  datatype Folder = Folder(kind: string, files: seq<Photo>)
  datatype Checked = Missing(kind: string) | Empty(kind: string) | Ready(folders: seq<Folder>)

  datatype Outcome =
    | Cancelled                   // the size dialog was dismissed
    | Declined                    // the overwrite question was answered No
    | MissingFolder(kind: string)
    | EmptyFolder(kind: string)
    | Initialised

  function Min(a: nat, b: nat): nat {
    if a <= b then a else b
  }

  /** `crop_to_square`'s box: a square whose side is the shorter edge,
      centred, with any odd pixel of slack left on the right or bottom. */
  function CropBox(width: nat, height: nat): Box {
    var m := Min(width, height);
    var left := (width - m) / 2;
    var top := (height - m) / 2;
    Box(left, top, left + m, top + m)
  }

  lemma CropBoxCentred(width: nat, height: nat)
    ensures var b := CropBox(width, height);
      b.right - b.left == b.bottom - b.top == Min(width, height) &&
      0 <= b.left <= b.right <= width && 0 <= b.top <= b.bottom <= height &&
      (b.left == 0 || b.top == 0) &&
      0 <= (width - b.right) - b.left <= 1 &&
      0 <= (height - b.bottom) - b.top <= 1
  {
  }

  /** The two groups of a shuffled listing: the first `len // 2` files
      go to half `a`, the rest to half `b`. */
  function Halves<T>(s: seq<T>): (seq<T>, seq<T>) {
    (s[..|s| / 2], s[|s| / 2..])
  }

  lemma HalvesSplit<T>(s: seq<T>)
    ensures var h := Halves(s);
      h.0 + h.1 == s && |h.0| == |s| / 2 && (|h.1| == |h.0| || |h.1| == |h.0| + 1)
  {
    assert s[..|s| / 2] + s[|s| / 2..] == s;
  }

  /** One leading `a_` or `b_` is dropped from a listed name, no more. */
  function Clean(name: string): string {
    if StartsWith(name, "a_") || StartsWith(name, "b_") then name[2..] else name
  }

  lemma CleanStripsOnce(name: string)
    ensures var r := Clean(name);
      (|name| - |r| == 0 || |name| - |r| == 2) &&
      name[|name| - |r|..] == r &&
      (r != name <==> StartsWith(name, "a_") || StartsWith(name, "b_"))
  {
  }

  /** The name a photo gets in `1_source_images`. */
  function Dest(half: char, kind: string, name: string): string {
    [half] + "_" + kind + "_" + Clean(name)
  }

  function Prefix(half: char, kind: string): string {
    [half] + "_" + kind + "_"
  }

  lemma DestHasPrefix(half: char, kind: string, name: string)
    ensures StartsWith(Dest(half, kind, name), Prefix(half, kind))
  {
    assert Dest(half, kind, name) == Prefix(half, kind) + Clean(name);
  }

  /** The half and kind prefixes are the ones the pairing stage sorts
      its pools by. */
  lemma PrefixesArePools()
    ensures Prefix('a', Man) == Pairing.AMan && Prefix('b', Man) == Pairing.BMan
    ensures Prefix('a', Nat) == Pairing.ANat && Prefix('b', Nat) == Pairing.BNat
  {
  }

  /** Cleaning strips a single prefix, so names that differ only by a
      leading `a_` or `b_` land on the same destination, and a doubled
      prefix keeps its second half. */
  lemma CleaningCollides()
    ensures Dest('a', Man, "cat.jpg") == Dest('a', Man, "a_cat.jpg") == Dest('a', Man, "b_cat.jpg")
    ensures Clean("a_b_cat.jpg") == "b_cat.jpg"
  {
    assert StartsWith("a_cat.jpg", "a_");
    assert StartsWith("b_cat.jpg", "b_");
    assert "cat.jpg"[..2] == "ca";
    assert "a_cat.jpg"[2..] == "cat.jpg" && "b_cat.jpg"[2..] == "cat.jpg";
    assert StartsWith("a_b_cat.jpg", "a_");
    assert "a_b_cat.jpg"[2..] == "b_cat.jpg";
  }

  function SquareOf(p: Photo, kind: string, size: nat): Square {
    Square(p.name, kind, CropBox(p.width, p.height), size)
  }

  /** Copying a group one file after another: a later file whose cleaned
      name repeats an earlier one overwrites it. */
  function Copied(dir: map<string, Square>, half: char, kind: string, files: seq<Photo>, size: nat): map<string, Square>
    decreases |files|
  {
    if files == [] then dir
    else Copied(dir[Dest(half, kind, files[0].name) := SquareOf(files[0], kind, size)], half, kind, files[1..], size)
  }

  /** An entry written by the copy phase: resized to `size` and named with
      a half prefix of its own kind. */
  predicate Entry(dir: map<string, Square>, k: string, size: nat)
    requires k in dir
  {
    dir[k].side == size &&
    (StartsWith(k, Prefix('a', dir[k].kind)) || StartsWith(k, Prefix('b', dir[k].kind)))
  }

  /** `files[i]` is the last photo of the group with its cleaned name, so
      its copy is the one left standing under that name. */
  predicate LastOfName(files: seq<Photo>, i: int) {
    0 <= i < |files| && forall j :: i < j < |files| ==> Clean(files[j].name) != Clean(files[i].name)
  }

  /** Every photo of `files` that is last with its cleaned name is stored
      under its destination as its own crop. */
  predicate Stored(r: map<string, Square>, half: char, kind: string, files: seq<Photo>, size: nat) {
    forall i :: 0 <= i < |files| && LastOfName(files, i) ==>
      Dest(half, kind, files[i].name) in r && r[Dest(half, kind, files[i].name)] == SquareOf(files[i], kind, size)
  }

  /** Destinations of kinds of one length share a name only for the same
      half, the same kind and the same cleaned name. */
  lemma DestDecodes(h1: char, k1: string, x: string, h2: char, k2: string, y: string)
    requires |k1| == |k2| && Dest(h1, k1, x) == Dest(h2, k2, y)
    ensures h1 == h2 && k1 == k2 && Clean(x) == Clean(y)
  {
    var d := Dest(h1, k1, x);
    assert d == Prefix(h1, k1) + Clean(x) && d == Prefix(h2, k2) + Clean(y);
    var n := |Prefix(h1, k1)|;
    assert Prefix(h1, k1) == d[..n] == Prefix(h2, k2);
    assert Clean(x) == d[n..] == Clean(y);
    assert h1 == Prefix(h1, k1)[0] && h2 == Prefix(h2, k2)[0];
    assert k1 == Prefix(h1, k1)[2..n - 1] && k2 == Prefix(h2, k2)[2..n - 1];
  }

  /** A group copy keeps every name already there and gives every photo its
      destination. The last photo with a cleaned name is what that name
      holds, cropped and resized. Names no photo is copied to keep their
      old content. */
  lemma {:induction false} CopiedSpec(dir: map<string, Square>, half: char, kind: string, files: seq<Photo>, size: nat)
    requires half == 'a' || half == 'b'
    ensures dir.Keys <= Copied(dir, half, kind, files, size).Keys
    ensures forall f :: f in files ==> Dest(half, kind, f.name) in Copied(dir, half, kind, files, size)
    ensures var r := Copied(dir, half, kind, files, size);
      forall k :: k in r ==> (k in dir && r[k] == dir[k]) || (Entry(r, k, size) && r[k].kind == kind)
    ensures Stored(Copied(dir, half, kind, files, size), half, kind, files, size)
    ensures var r := Copied(dir, half, kind, files, size);
      forall k :: k in dir && (forall f :: f in files ==> Dest(half, kind, f.name) != k) ==> k in r && r[k] == dir[k]
    decreases |files|
  {
    if files != [] {
      var d := Dest(half, kind, files[0].name);
      var next := dir[d := SquareOf(files[0], kind, size)];
      var rest := files[1..];
      DestHasPrefix(half, kind, files[0].name);
      assert Entry(next, d, size);
      CopiedSpec(next, half, kind, rest, size);
      var r := Copied(next, half, kind, rest, size);
      assert Copied(dir, half, kind, files, size) == r;
      forall f | f in files
        ensures Dest(half, kind, f.name) in r
      {
        if f != files[0] {
          assert f in rest;
        }
      }
      forall i | LastOfName(files, i)
        ensures Dest(half, kind, files[i].name) in r && r[Dest(half, kind, files[i].name)] == SquareOf(files[i], kind, size)
      {
        if i == 0 {
          forall f | f in rest
            ensures Dest(half, kind, f.name) != d
          {
            var m :| 0 <= m < |rest| && rest[m] == f;
            assert files[m + 1] == f;
            if Dest(half, kind, f.name) == d {
              DestDecodes(half, kind, f.name, half, kind, files[0].name);
            }
          }
        } else {
          assert rest[i - 1] == files[i];
          assert LastOfName(rest, i - 1);
        }
      }
      forall k | k in dir && (forall f :: f in files ==> Dest(half, kind, f.name) != k)
        ensures k in r && r[k] == dir[k]
      {
        assert files[0] in files;
        assert forall f :: f in rest ==> f in files;
      }
    }
  }

  /** The whole copy phase: each folder in turn is shuffled, split into
      halves, and copied half `a` first. */
  datatype Copy = Copy(files: map<string, Square>, next: nat)

  /** One folder: shuffled, then its first half copied as `a`, the rest as `b`. */
  function FolderCopied(dir: map<string, Square>, f: Folder, o: Oracle, seed: int, t: nat, size: nat): map<string, Square> {
    var h := Halves(Shuffled(f.files, o, seed, t));
    Copied(Copied(dir, 'a', f.kind, h.0, size), 'b', f.kind, h.1, size)
  }

  function Prepared(dir: map<string, Square>, folders: seq<Folder>, o: Oracle, seed: int, t: nat, size: nat): Copy
    decreases |folders|
  {
    if folders == [] then Copy(dir, t)
    else
      var f := folders[0];
      Prepared(FolderCopied(dir, f, o, seed, t, size), folders[1..], o, seed, t + ShuffleDraws(|f.files|), size)
  }

  /** One folder's step of the copy phase, seen from position `k`. */
  lemma PreparedStep(dir: map<string, Square>, folders: seq<Folder>, k: nat, o: Oracle, seed: int, t: nat, size: nat,
                      next: map<string, Square>, t2: nat)
    requires k < |folders|
    requires next == FolderCopied(dir, folders[k], o, seed, t, size)
    requires t2 == t + ShuffleDraws(|folders[k].files|)
    ensures Prepared(dir, folders[k..], o, seed, t, size) == Prepared(next, folders[k + 1..], o, seed, t2, size)
  {
    assert folders[k..][0] == folders[k];
    assert folders[k..][1..] == folders[k + 1..];
  }

  /** A shuffled folder's two halves hold exactly its photos. */
  lemma HalvesOfShuffled(f: Folder, o: Oracle, seed: int, t: nat)
    ensures var h := Halves(Shuffled(f.files, o, seed, t));
      forall p :: p in f.files <==> p in h.0 || p in h.1
  {
    var s := Shuffled(f.files, o, seed, t);
    var h := Halves(s);
    ShuffledPermutes(f.files, o, seed, t);
    HalvesSplit(s);
    forall p
      ensures p in f.files <==> p in h.0 || p in h.1
    {
      calc {
        p in f.files;
        p in multiset(f.files);
        p in multiset(s);
        p in h.0 + h.1;
      }
    }
  }

  /** One folder's copy keeps what was there, gives every photo of the
      shuffled first half an `a_` name and every photo of the second half a
      `b_` name, and the halves hold exactly the folder's photos. */
  lemma FolderCopiedCovers(dir: map<string, Square>, f: Folder, o: Oracle, seed: int, t: nat, size: nat)
    ensures var r := FolderCopied(dir, f, o, seed, t, size);
      var h := Halves(Shuffled(f.files, o, seed, t));
      dir.Keys <= r.Keys &&
      (forall p :: p in f.files <==> p in h.0 || p in h.1) &&
      (forall p :: p in h.0 ==> Dest('a', f.kind, p.name) in r) &&
      (forall p :: p in h.1 ==> Dest('b', f.kind, p.name) in r)
  {
    var h := Halves(Shuffled(f.files, o, seed, t));
    var d1 := Copied(dir, 'a', f.kind, h.0, size);
    CopiedSpec(dir, 'a', f.kind, h.0, size);
    CopiedSpec(d1, 'b', f.kind, h.1, size);
    HalvesOfShuffled(f, o, seed, t);
  }

  /** What one folder's copy stores: the first half's last photo of each
      cleaned name under its `a_` name, the second half's under its `b_`
      name, each as its own crop; names the folder does not copy to keep
      their content. */
  lemma FolderCopiedContents(dir: map<string, Square>, f: Folder, o: Oracle, seed: int, t: nat, size: nat)
    ensures var r := FolderCopied(dir, f, o, seed, t, size);
      var h := Halves(Shuffled(f.files, o, seed, t));
      Stored(r, 'a', f.kind, h.0, size) && Stored(r, 'b', f.kind, h.1, size)
    ensures var r := FolderCopied(dir, f, o, seed, t, size);
      forall k :: k in dir && (forall p :: p in f.files ==> Dest('a', f.kind, p.name) != k && Dest('b', f.kind, p.name) != k) ==>
        k in r && r[k] == dir[k]
  {
    var h := Halves(Shuffled(f.files, o, seed, t));
    var d1 := Copied(dir, 'a', f.kind, h.0, size);
    var r := Copied(d1, 'b', f.kind, h.1, size);
    CopiedSpec(dir, 'a', f.kind, h.0, size);
    CopiedSpec(d1, 'b', f.kind, h.1, size);
    HalvesOfShuffled(f, o, seed, t);
    forall i | 0 <= i < |h.0| && LastOfName(h.0, i)
      ensures Dest('a', f.kind, h.0[i].name) in r && r[Dest('a', f.kind, h.0[i].name)] == SquareOf(h.0[i], f.kind, size)
    {
      var k := Dest('a', f.kind, h.0[i].name);
      forall p | p in h.1
        ensures Dest('b', f.kind, p.name) != k
      {
        if Dest('b', f.kind, p.name) == k {
          DestDecodes('b', f.kind, p.name, 'a', f.kind, h.0[i].name);
        }
      }
    }
  }

  /** One folder's copy writes only entries of the folder's kind. */
  lemma FolderCopiedEntries(dir: map<string, Square>, f: Folder, o: Oracle, seed: int, t: nat, size: nat)
    ensures var r := FolderCopied(dir, f, o, seed, t, size);
      forall k :: k in r ==> (k in dir && r[k] == dir[k]) || (Entry(r, k, size) && r[k].kind == f.kind)
  {
    var h := Halves(Shuffled(f.files, o, seed, t));
    var d1 := Copied(dir, 'a', f.kind, h.0, size);
    CopiedSpec(dir, 'a', f.kind, h.0, size);
    CopiedSpec(d1, 'b', f.kind, h.1, size);
  }

  /** Every photo of every folder is copied, into one half or the other,
      and nothing already there disappears. */
  lemma {:induction false} PreparedCovers(dir: map<string, Square>, folders: seq<Folder>, o: Oracle, seed: int, t: nat, size: nat)
    ensures var r := Prepared(dir, folders, o, seed, t, size).files;
      dir.Keys <= r.Keys &&
      (forall g, p :: g in folders && p in g.files ==> Dest('a', g.kind, p.name) in r || Dest('b', g.kind, p.name) in r)
    decreases |folders|
  {
    if folders != [] {
      var f := folders[0];
      var d := FolderCopied(dir, f, o, seed, t, size);
      var t2 := t + ShuffleDraws(|f.files|);
      var rest := folders[1..];
      assert Prepared(dir, folders, o, seed, t, size) == Prepared(d, rest, o, seed, t2, size);
      FolderCopiedCovers(dir, f, o, seed, t, size);
      PreparedCovers(d, rest, o, seed, t2, size);
      assert forall g :: g in folders ==> g == f || g in rest;
    }
  }

  /** The draws the shuffles of `folders` take, one folder after another. */
  function DrawsOf(folders: seq<Folder>): nat
    decreases |folders|
  {
    if folders == [] then 0 else ShuffleDraws(|folders[0].files|) + DrawsOf(folders[1..])
  }

  /** The halves folder `m` is split into: its listing shuffled at the
      draw position the earlier folders' shuffles leave. */
  function HalvesAt(folders: seq<Folder>, m: nat, o: Oracle, seed: int, t: nat): (seq<Photo>, seq<Photo>)
    requires m < |folders|
  {
    Halves(Shuffled(folders[m].files, o, seed, t + DrawsOf(folders[..m])))
  }

  /** Folders of distinct kinds, all spelt with the same number of letters
      (as `man` and `nat` are), so no two write to the same name. */
  predicate DistinctKinds(folders: seq<Folder>) {
    forall i, j :: 0 <= i < j < |folders| ==> folders[i].kind != folders[j].kind && |folders[i].kind| == |folders[j].kind|
  }

  /** No photo of `folders` is copied to the name `k`. */
  predicate Unwritten(k: string, folders: seq<Folder>) {
    forall g, p :: g in folders && p in g.files ==> Dest('a', g.kind, p.name) != k && Dest('b', g.kind, p.name) != k
  }

  /** Names no folder copies to keep their content through the whole
      copy phase. */
  lemma {:induction false} PreparedUntouched(dir: map<string, Square>, folders: seq<Folder>, o: Oracle, seed: int, t: nat, size: nat)
    ensures var r := Prepared(dir, folders, o, seed, t, size).files;
      forall k :: k in dir && Unwritten(k, folders) ==> k in r && r[k] == dir[k]
    decreases |folders|
  {
    if folders != [] {
      var f := folders[0];
      var d := FolderCopied(dir, f, o, seed, t, size);
      var t2 := t + ShuffleDraws(|f.files|);
      PreparedStep(dir, folders, 0, o, seed, t, size, d, t2);
      assert folders[0..] == folders;
      FolderCopiedContents(dir, f, o, seed, t, size);
      PreparedUntouched(d, folders[1..], o, seed, t2, size);
      forall k | k in dir && Unwritten(k, folders)
        ensures k in d && d[k] == dir[k] && Unwritten(k, folders[1..])
      {
        UnwrittenSplit(k, folders);
      }
    }
  }

  /** A name no folder copies to is one neither the first folder nor the
      rest copies to. */
  lemma UnwrittenSplit(k: string, folders: seq<Folder>)
    requires folders != [] && Unwritten(k, folders)
    ensures Unwritten(k, folders[1..])
    ensures forall p :: p in folders[0].files ==> Dest('a', folders[0].kind, p.name) != k && Dest('b', folders[0].kind, p.name) != k
  {
    assert folders[0] in folders;
    assert forall g :: g in folders[1..] ==> g in folders;
  }

  /** The rest of a list of distinct kinds still has distinct kinds, none
      of them the first folder's. */
  lemma DistinctKindsTail(folders: seq<Folder>)
    requires folders != [] && DistinctKinds(folders)
    ensures DistinctKinds(folders[1..])
    ensures forall i :: 0 <= i < |folders[1..]| ==>
      folders[1..][i].kind != folders[0].kind && |folders[1..][i].kind| == |folders[0].kind|
  {
    var rest := folders[1..];
    forall i, j | 0 <= i < j < |rest|
      ensures rest[i].kind != rest[j].kind && |rest[i].kind| == |rest[j].kind|
    {
      assert rest[i] == folders[i + 1] && rest[j] == folders[j + 1];
    }
    forall i | 0 <= i < |rest|
      ensures rest[i].kind != folders[0].kind && |rest[i].kind| == |folders[0].kind|
    {
      assert rest[i] == folders[i + 1];
    }
  }

  /** What the whole copy phase stores for folder `m`: each half's last
      photo of each cleaned name under that half's name, as its own crop,
      with the halves cut from the folder's listing as shuffled at the draw
      position the earlier folders leave. */
  lemma {:induction false} PreparedContents(dir: map<string, Square>, folders: seq<Folder>, m: nat,
                                            o: Oracle, seed: int, t: nat, size: nat)
    requires DistinctKinds(folders) && m < |folders|
    ensures var r := Prepared(dir, folders, o, seed, t, size).files;
      Stored(r, 'a', folders[m].kind, HalvesAt(folders, m, o, seed, t).0, size) &&
      Stored(r, 'b', folders[m].kind, HalvesAt(folders, m, o, seed, t).1, size)
    decreases |folders|
  {
    if m == 0 {
      PreparedFirst(dir, folders, o, seed, t, size);
    } else {
      var d := FolderCopied(dir, folders[0], o, seed, t, size);
      var t2 := t + ShuffleDraws(|folders[0].files|);
      DistinctKindsTail(folders);
      PreparedContents(d, folders[1..], m - 1, o, seed, t2, size);
      PreparedLater(dir, folders, m, o, seed, t, size, d, t2);
    }
  }

  /** The first folder's part of `PreparedContents`. */
  lemma PreparedFirst(dir: map<string, Square>, folders: seq<Folder>, o: Oracle, seed: int, t: nat, size: nat)
    requires DistinctKinds(folders) && folders != []
    ensures var r := Prepared(dir, folders, o, seed, t, size).files;
      Stored(r, 'a', folders[0].kind, HalvesAt(folders, 0, o, seed, t).0, size) &&
      Stored(r, 'b', folders[0].kind, HalvesAt(folders, 0, o, seed, t).1, size)
  {
    var d := FolderCopied(dir, folders[0], o, seed, t, size);
    var t2 := t + ShuffleDraws(|folders[0].files|);
    PreparedStep(dir, folders, 0, o, seed, t, size, d, t2);
    assert folders[0..] == folders;
    HalvesAtShift(folders, 0, o, seed, t, t2);
    DistinctKindsTail(folders);
    FolderCopiedContents(dir, folders[0], o, seed, t, size);
    PreparedUntouched(d, folders[1..], o, seed, t2, size);
    FirstFolderKept(d, folders[1..], folders[0], o, seed, t, t2, size);
  }

  /** A later folder's part of `PreparedContents`: what the rest of the
      copy phase stores for it is what the whole phase stores. */
  lemma PreparedLater(dir: map<string, Square>, folders: seq<Folder>, m: nat, o: Oracle, seed: int, t: nat, size: nat,
                      d: map<string, Square>, t2: nat)
    requires 0 < m < |folders|
    requires d == FolderCopied(dir, folders[0], o, seed, t, size)
    requires t2 == t + ShuffleDraws(|folders[0].files|)
    requires var r := Prepared(d, folders[1..], o, seed, t2, size).files;
      Stored(r, 'a', folders[1..][m - 1].kind, HalvesAt(folders[1..], m - 1, o, seed, t2).0, size) &&
      Stored(r, 'b', folders[1..][m - 1].kind, HalvesAt(folders[1..], m - 1, o, seed, t2).1, size)
    ensures var r := Prepared(dir, folders, o, seed, t, size).files;
      Stored(r, 'a', folders[m].kind, HalvesAt(folders, m, o, seed, t).0, size) &&
      Stored(r, 'b', folders[m].kind, HalvesAt(folders, m, o, seed, t).1, size)
  {
    PreparedStep(dir, folders, 0, o, seed, t, size, d, t2);
    assert folders[0..] == folders;
    HalvesAtShift(folders, m, o, seed, t, t2);
  }

  /** Folder `m` is split as folder `m - 1` of the rest is, once the
      first folder's shuffle has taken its draws. */
  lemma HalvesAtShift(folders: seq<Folder>, m: nat, o: Oracle, seed: int, t: nat, t2: nat)
    requires m < |folders| && t2 == t + ShuffleDraws(|folders[0].files|)
    ensures m == 0 ==> HalvesAt(folders, m, o, seed, t) == Halves(Shuffled(folders[0].files, o, seed, t))
    ensures 0 < m ==>
      folders[m] == folders[1..][m - 1] &&
      HalvesAt(folders, m, o, seed, t) == HalvesAt(folders[1..], m - 1, o, seed, t2)
  {
    if m == 0 {
      assert folders[..0] == [];
    } else {
      assert folders[..m][0] == folders[0] && folders[..m][1..] == folders[1..][..m - 1];
    }
  }

  /** The first folder's entries survive the later folders' copies, whose
      kinds differ from it. */
  lemma FirstFolderKept(d: map<string, Square>, rest: seq<Folder>, f: Folder, o: Oracle, seed: int, t: nat, t2: nat, size: nat)
    requires forall i :: 0 <= i < |rest| ==> rest[i].kind != f.kind && |rest[i].kind| == |f.kind|
    requires var h := Halves(Shuffled(f.files, o, seed, t));
      Stored(d, 'a', f.kind, h.0, size) && Stored(d, 'b', f.kind, h.1, size)
    requires var r := Prepared(d, rest, o, seed, t2, size).files;
      forall k :: k in d && Unwritten(k, rest) ==> k in r && r[k] == d[k]
    ensures var r := Prepared(d, rest, o, seed, t2, size).files;
      var h := Halves(Shuffled(f.files, o, seed, t));
      Stored(r, 'a', f.kind, h.0, size) && Stored(r, 'b', f.kind, h.1, size)
  {
    var h := Halves(Shuffled(f.files, o, seed, t));
    forall i | 0 <= i < |h.0| && LastOfName(h.0, i)
      ensures Unwritten(Dest('a', f.kind, h.0[i].name), rest)
    {
      OtherKindsMiss('a', f.kind, h.0[i].name, rest);
    }
    forall i | 0 <= i < |h.1| && LastOfName(h.1, i)
      ensures Unwritten(Dest('b', f.kind, h.1[i].name), rest)
    {
      OtherKindsMiss('b', f.kind, h.1[i].name, rest);
    }
  }

  /** Folders of other kinds, spelt as long, never copy to a name of `kind`. */
  lemma OtherKindsMiss(half: char, kind: string, name: string, rest: seq<Folder>)
    requires forall i :: 0 <= i < |rest| ==> rest[i].kind != kind && |rest[i].kind| == |kind|
    ensures Unwritten(Dest(half, kind, name), rest)
  {
    var k := Dest(half, kind, name);
    forall g, p | g in rest && p in g.files
      ensures Dest('a', g.kind, p.name) != k && Dest('b', g.kind, p.name) != k
    {
      var i :| 0 <= i < |rest| && rest[i] == g;
      if Dest('a', g.kind, p.name) == k {
        DestDecodes('a', g.kind, p.name, half, kind, name);
      }
      if Dest('b', g.kind, p.name) == k {
        DestDecodes('b', g.kind, p.name, half, kind, name);
      }
    }
  }


  /** Every entry the copy phase writes is an `Entry` of one of the
      folders' kinds; everything else is left as it was. */
  lemma {:induction false} PreparedEntries(dir: map<string, Square>, folders: seq<Folder>, kinds: set<string>,
                                           o: Oracle, seed: int, t: nat, size: nat)
    requires forall f :: f in folders ==> f.kind in kinds
    ensures var r := Prepared(dir, folders, o, seed, t, size).files;
      forall k :: k in r ==> (k in dir && r[k] == dir[k]) || (Entry(r, k, size) && r[k].kind in kinds)
    decreases |folders|
  {
    if folders != [] {
      var f := folders[0];
      var d := FolderCopied(dir, f, o, seed, t, size);
      var t2 := t + ShuffleDraws(|f.files|);
      assert Prepared(dir, folders, o, seed, t, size) == Prepared(d, folders[1..], o, seed, t2, size);
      FolderCopiedEntries(dir, f, o, seed, t, size);
      assert f in folders;
      assert forall g :: g in folders[1..] ==> g in folders;
      PreparedEntries(d, folders[1..], kinds, o, seed, t2, size);
    }
  }

  /** The folder check: the first folder missing or empty, in order,
      stops the run; otherwise every folder with its listing. */
  function CheckFolders(cands: seq<Candidate>): Checked
    decreases |cands|
  {
    if cands == [] then Ready([])
    else
      var c := cands[|cands| - 1];
      match CheckFolders(cands[..|cands| - 1])
      case Ready(fs) =>
        if c.folder.None? then Missing(c.kind)
        else if |c.folder.value| == 0 then Empty(c.kind)
        else Ready(fs + [Folder(c.kind, c.folder.value)])
      case failed => failed
  }

  /** A failure in a prefix of the folders is the failure of them all. */
  lemma {:induction false} FailureSticks(cands: seq<Candidate>, i: nat)
    requires i <= |cands| && !CheckFolders(cands[..i]).Ready?
    ensures CheckFolders(cands) == CheckFolders(cands[..i])
    decreases |cands| - i
  {
    if i < |cands| {
      assert cands[..i + 1][..i] == cands[..i];
      FailureSticks(cands, i + 1);
    } else {
      assert cands[..i] == cands;
    }
  }

  /** For the two folders the stage checks, man before nat. */
  lemma ManCheckedFirst(man: Option<seq<Photo>>, natural: Option<seq<Photo>>)
    ensures CheckFolders([Candidate(Man, man), Candidate(Nat, natural)]) ==
      if man.None? then Missing(Man)
      else if |man.value| == 0 then Empty(Man)
      else if natural.None? then Missing(Nat)
      else if |natural.value| == 0 then Empty(Nat)
      else Ready([Folder(Man, man.value), Folder(Nat, natural.value)])
  {
    var cands := [Candidate(Man, man), Candidate(Nat, natural)];
    assert cands[..1] == [Candidate(Man, man)];
    assert cands[..1][..0] == [];
    assert CheckFolders([]) == Ready([]);
    assert CheckFolders(cands[..1]) ==
      if man.None? then Missing(Man)
      else if |man.value| == 0 then Empty(Man)
      else Ready([Folder(Man, man.value)]);
  }

  function TotalFiles(folders: seq<Folder>): nat
    decreases |folders|
  {
    if folders == [] then 0 else TotalFiles(folders[..|folders| - 1]) + |folders[|folders| - 1].files|
  }

  lemma TotalOfTwo(folders: seq<Folder>)
    requires |folders| == 2
    ensures TotalFiles(folders) == |folders[0].files| + |folders[1].files|
  {
    var first := folders[..1];
    assert first[..0] == [];
    assert TotalFiles(first) == |folders[0].files|;
    assert folders[..2] == folders;
  }

  /** The warning a failed check shows, as an outcome. */
  function Verdict(c: Checked): Outcome {
    match c
    case Missing(kind) => MissingFolder(kind)
    case Empty(kind) => EmptyFolder(kind)
    case Ready(_) => Initialised
  }

  /** The count-and-check loop: no file system change, only the verdict
      and the number of files the progress bar will count to. */
  method CountFiles(cands: seq<Candidate>) returns (r: Checked, total: nat)
    ensures r == CheckFolders(cands)
    ensures r.Ready? ==> total == TotalFiles(r.folders) && |r.folders| == |cands|
  {
    var folders: seq<Folder> := [];
    total := 0;
    var i := 0;
    while i < |cands|
      invariant 0 <= i <= |cands|
      invariant CheckFolders(cands[..i]) == Ready(folders) && |folders| == i
      invariant total == TotalFiles(folders)
    {
      var c := cands[i];
      assert cands[..i + 1][..i] == cands[..i];
      if c.folder.None? {
        r := Missing(c.kind);
        FailureSticks(cands, i + 1);
        return;
      }
      var files := c.folder.value;
      if |files| == 0 {
        r := Empty(c.kind);
        FailureSticks(cands, i + 1);
        return;
      }
      total := total + |files|;
      folders := folders + [Folder(c.kind, files)];
      assert folders[..|folders| - 1] == folders[..i];
      i := i + 1;
    }
    assert cands[..i] == cands;
    r := Ready(folders);
  }

  /** The initialisation window's effect on the output location. */
  class Initialiser {
    const o: Oracle
    var rngSeed: int
    var rngPos: nat
    /** The folders present at the output location. */
    var baseDirs: set<string>
    /** The files of `1_source_images`. */
    var sourceFiles: map<string, Square>
    var progressMax: nat
    var progressValue: nat

    constructor(generator: Oracle, entropy: int, existing: set<string>, files: map<string, Square>)
      ensures o == generator && rngSeed == entropy && rngPos == 0
      ensures baseDirs == existing && sourceFiles == files
      ensures progressMax == 0 && progressValue == 0
    {
      o := generator;
      rngSeed := entropy;
      rngPos := 0;
      baseDirs := existing;
      sourceFiles := files;
      progressMax := 0;
      progressValue := 0;
    }

    /** `initialise_directories`, with the size dialog's answer (`None`
        when dismissed) and the overwrite answer as parameters. */
    method InitialiseDirectories(sizeAnswer: Option<nat>, overwrite: bool,
                                 man: Option<seq<Photo>>, natural: Option<seq<Photo>>)
      returns (outcome: Outcome)
      modifies this
      ensures sizeAnswer.None? ==> outcome == Cancelled
      ensures sizeAnswer.Some? && SourceDir in old(baseDirs) && !overwrite ==> outcome == Declined
      ensures outcome.Cancelled? || outcome.Declined? ==>
        baseDirs == old(baseDirs) && sourceFiles == old(sourceFiles) && rngPos == old(rngPos) &&
        progressMax == old(progressMax) && progressValue == old(progressValue)
      ensures !outcome.Cancelled? && !outcome.Declined? ==>
        sizeAnswer.Some? && (SourceDir in old(baseDirs) ==> overwrite) &&
        outcome == Verdict(CheckFolders([Candidate(Man, man), Candidate(Nat, natural)]))
      ensures outcome.MissingFolder? || outcome.EmptyFolder? ==>
        baseDirs == old(baseDirs) + {SourceDir} && sourceFiles == map[] && rngPos == old(rngPos) &&
        progressMax == old(progressMax) && progressValue == old(progressValue)
      ensures outcome.Initialised? ==> man.Some? && natural.Some?
      ensures outcome.Initialised? ==>
        var copy := Prepared(map[], [Folder(Man, man.value), Folder(Nat, natural.value)],
                             o, rngSeed, old(rngPos), sizeAnswer.value);
        sourceFiles == copy.files && rngPos == copy.next &&
        progressMax == progressValue == |man.value| + |natural.value| &&
        baseDirs == old(baseDirs) + {SourceDir} + (set f | f in RequiredFolders)
      ensures rngSeed == old(rngSeed)
    {
      if sizeAnswer.None? {
        return Cancelled;
      }
      var proceed := ClearSource(overwrite);
      if !proceed {
        return Declined;
      }
      outcome := Populate(man, natural, sizeAnswer.value);
    }

    /** From the folder check on: the two folders are checked, man first,
        then shuffled, split and copied, then the stage folders made. */
    method Populate(man: Option<seq<Photo>>, natural: Option<seq<Photo>>, size: nat) returns (outcome: Outcome)
      modifies this`sourceFiles, this`rngPos, this`progressMax, this`progressValue, this`baseDirs
      ensures outcome == Verdict(CheckFolders([Candidate(Man, man), Candidate(Nat, natural)]))
      ensures !outcome.Initialised? ==>
        baseDirs == old(baseDirs) && sourceFiles == old(sourceFiles) && rngPos == old(rngPos) &&
        progressMax == old(progressMax) && progressValue == old(progressValue)
      ensures outcome.Initialised? ==> man.Some? && natural.Some?
      ensures outcome.Initialised? ==>
        var copy := Prepared(old(sourceFiles), [Folder(Man, man.value), Folder(Nat, natural.value)],
                             o, rngSeed, old(rngPos), size);
        sourceFiles == copy.files && rngPos == copy.next &&
        progressMax == progressValue == |man.value| + |natural.value| &&
        baseDirs == old(baseDirs) + (set f | f in RequiredFolders)
    {
      var checked, total := CountFiles([Candidate(Man, man), Candidate(Nat, natural)]);
      ManCheckedFirst(man, natural);
      if !checked.Ready? {
        return Verdict(checked);
      }
      var folders := checked.folders;
      assert folders == [Folder(Man, man.value), Folder(Nat, natural.value)];
      TotalOfTwo(folders);
      progressMax := total;
      progressValue := 0;
      CopyFolders(folders, size);
      CreateRequired();
      outcome := Initialised;
    }

    /** The overwrite step: an existing `1_source_images` is emptied of its
        files only if the user agrees; a missing one is created. */
    method ClearSource(overwrite: bool) returns (proceed: bool)
      modifies this`baseDirs, this`sourceFiles
      ensures proceed == (SourceDir !in old(baseDirs) || overwrite)
      ensures proceed ==> baseDirs == old(baseDirs) + {SourceDir} && sourceFiles == map[]
      ensures !proceed ==> baseDirs == old(baseDirs) && sourceFiles == old(sourceFiles)
    {
      if SourceDir in baseDirs {
        if !overwrite {
          return false;
        }
      } else {
        baseDirs := baseDirs + {SourceDir};
      }
      sourceFiles := map[];
      proceed := true;
    }

    /** The copy loop over the checked folders. */
    method CopyFolders(folders: seq<Folder>, size: nat)
      modifies this`sourceFiles, this`rngPos, this`progressValue
      ensures var copy := Prepared(old(sourceFiles), folders, o, rngSeed, old(rngPos), size);
        sourceFiles == copy.files && rngPos == copy.next
      ensures progressValue == old(progressValue) + TotalFiles(folders)
    {
      var k := 0;
      while k < |folders|
        invariant 0 <= k <= |folders|
        invariant Prepared(sourceFiles, folders[k..], o, rngSeed, rngPos, size) ==
                  Prepared(old(sourceFiles), folders, o, rngSeed, old(rngPos), size)
        invariant progressValue == old(progressValue) + TotalFiles(folders[..k])
      {
        ghost var dir, t := sourceFiles, rngPos;
        CopyFolder(folders[k], size);
        PreparedStep(dir, folders, k, o, rngSeed, t, size, sourceFiles, rngPos);
        assert folders[..k + 1][..k] == folders[..k];
        k := k + 1;
      }
      assert folders[..k] == folders;
    }

    /** One pass of the copy loop: `random.shuffle(files)`, then the
        two groups. */
    method CopyFolder(f: Folder, size: nat)
      modifies this`sourceFiles, this`rngPos, this`progressValue
      ensures sourceFiles == FolderCopied(old(sourceFiles), f, o, rngSeed, old(rngPos), size)
      ensures rngPos == old(rngPos) + ShuffleDraws(|f.files|)
      ensures progressValue == old(progressValue) + |f.files|
    {
      var a := new Photo[|f.files|](i requires 0 <= i < |f.files| => f.files[i]);
      assert a[..] == f.files;
      ghost var d0, t0 := sourceFiles, rngPos;
      rngPos := Shuffle(a, o, rngSeed, rngPos);
      ghost var h := Halves(Shuffled(f.files, o, rngSeed, t0));
      var mid := a.Length / 2;
      assert a[0..mid] == h.0 && a[mid..a.Length] == h.1;
      CopyGroup('a', f.kind, a, 0, mid, size);
      ghost var d1 := sourceFiles;
      assert d1 == Copied(d0, 'a', f.kind, h.0, size);
      CopyGroup('b', f.kind, a, mid, a.Length, size);
      assert sourceFiles == Copied(d1, 'b', f.kind, h.1, size);
    }

    /** One group's copy loop, `processed` going up by one per file. */
    method CopyGroup(half: char, kind: string, a: array<Photo>, lo: nat, hi: nat, size: nat)
      requires lo <= hi <= a.Length
      modifies this`sourceFiles, this`progressValue
      ensures sourceFiles == Copied(old(sourceFiles), half, kind, a[lo..hi], size)
      ensures progressValue == old(progressValue) + (hi - lo)
    {
      var i := lo;
      while i < hi
        invariant lo <= i <= hi
        invariant Copied(sourceFiles, half, kind, a[i..hi], size) == Copied(old(sourceFiles), half, kind, a[lo..hi], size)
        invariant progressValue == old(progressValue) + (i - lo)
      {
        assert a[i..hi][1..] == a[i + 1..hi];
        sourceFiles := sourceFiles[Dest(half, kind, a[i].name) := SquareOf(a[i], kind, size)];
        progressValue := progressValue + 1;
        i := i + 1;
      }
    }

    /** Creates each stage folder that is not there yet. */
    method CreateRequired()
      modifies this`baseDirs
      ensures baseDirs == old(baseDirs) + set f | f in RequiredFolders
    {
      var i := 0;
      while i < |RequiredFolders|
        invariant 0 <= i <= |RequiredFolders|
        invariant baseDirs == old(baseDirs) + set f | f in RequiredFolders[..i]
      {
        var folder := RequiredFolders[i];
        assert RequiredFolders[..i + 1] == RequiredFolders[..i] + [folder];
        if folder !in baseDirs {
          baseDirs := baseDirs + {folder};
        }
        i := i + 1;
      }
      assert RequiredFolders[..i] == RequiredFolders;
    }
  }

  /** After a run, every photo of both folders is in `1_source_images`
      under its kind, in one half or the other. The man folder is shuffled
      first and split; the last photo of each cleaned name in its first
      half is stored under its `a_man_` name and in its second half under
      its `b_man_` name, each as its own crop. The nat folder is shuffled
      with the draws that follow and stored the same way. */
  lemma InitialisedCovers(man: seq<Photo>, natural: seq<Photo>, o: Oracle, seed: int, t: nat, size: nat)
    ensures var r := Prepared(map[], [Folder(Man, man), Folder(Nat, natural)], o, seed, t, size).files;
      (forall f :: f in man ==> Dest('a', Man, f.name) in r || Dest('b', Man, f.name) in r) &&
      (forall f :: f in natural ==> Dest('a', Nat, f.name) in r || Dest('b', Nat, f.name) in r)
    ensures var r := Prepared(map[], [Folder(Man, man), Folder(Nat, natural)], o, seed, t, size).files;
      var h := Halves(Shuffled(man, o, seed, t));
      Stored(r, 'a', Man, h.0, size) && Stored(r, 'b', Man, h.1, size)
    ensures var r := Prepared(map[], [Folder(Man, man), Folder(Nat, natural)], o, seed, t, size).files;
      var h := Halves(Shuffled(natural, o, seed, t + ShuffleDraws(|man|)));
      Stored(r, 'a', Nat, h.0, size) && Stored(r, 'b', Nat, h.1, size)
  {
    var folders := [Folder(Man, man), Folder(Nat, natural)];
    PreparedCovers(map[], folders, o, seed, t, size);
    assert folders[0] in folders && folders[1] in folders;
    assert DistinctKinds(folders);
    var t2 := t + ShuffleDraws(|man|);
    PreparedTwo(map[], folders, o, seed, t, t2, size);
  }

  /** `PreparedContents` for a run over two folders. */
  lemma PreparedTwo(dir: map<string, Square>, folders: seq<Folder>, o: Oracle, seed: int, t: nat, t2: nat, size: nat)
    requires |folders| == 2 && DistinctKinds(folders)
    requires t2 == t + ShuffleDraws(|folders[0].files|)
    ensures var r := Prepared(dir, folders, o, seed, t, size).files;
      var h := Halves(Shuffled(folders[0].files, o, seed, t));
      Stored(r, 'a', folders[0].kind, h.0, size) && Stored(r, 'b', folders[0].kind, h.1, size)
    ensures var r := Prepared(dir, folders, o, seed, t, size).files;
      var h := Halves(Shuffled(folders[1].files, o, seed, t2));
      Stored(r, 'a', folders[1].kind, h.0, size) && Stored(r, 'b', folders[1].kind, h.1, size)
  {
    var r := Prepared(dir, folders, o, seed, t, size).files;
    PreparedContents(dir, folders, 0, o, seed, t, size);
    PreparedContents(dir, folders, 1, o, seed, t, size);
    HalvesAtTwo(folders, o, seed, t, t2);
  }

  lemma HalvesAtTwo(folders: seq<Folder>, o: Oracle, seed: int, t: nat, t2: nat)
    requires |folders| == 2 && t2 == t + ShuffleDraws(|folders[0].files|)
    ensures HalvesAt(folders, 0, o, seed, t) == Halves(Shuffled(folders[0].files, o, seed, t))
    ensures HalvesAt(folders, 1, o, seed, t) == Halves(Shuffled(folders[1].files, o, seed, t2))
  {
    assert folders[..0] == [];
    assert folders[..1][0] == folders[0] && folders[..1][1..] == [];
  }

  /** A file named with a half prefix of either kind is in one of the four
      pools the pairing stage reads. */
  lemma PrefixInPools(k: string, kind: string)
    requires kind == Man || kind == Nat
    requires StartsWith(k, Prefix('a', kind)) || StartsWith(k, Prefix('b', kind))
    ensures StartsWith(k, Pairing.AMan) || StartsWith(k, Pairing.BMan) ||
            StartsWith(k, Pairing.ANat) || StartsWith(k, Pairing.BNat)
  {
    PrefixesArePools();
  }

  predicate InPools(k: string) {
    StartsWith(k, Pairing.AMan) || StartsWith(k, Pairing.BMan) ||
    StartsWith(k, Pairing.ANat) || StartsWith(k, Pairing.BNat)
  }

  /** After a run over man and nat folders, every file in
      `1_source_images` has the chosen side and belongs to one of the four
      pools the pairing stage reads, if that held before the run (as it
      does for the emptied folder). */
  lemma InitialisedInPools(dir: map<string, Square>, folders: seq<Folder>, o: Oracle, seed: int, t: nat, size: nat)
    requires forall g :: g in folders ==> g.kind in {Man, Nat}
    requires forall k :: k in dir ==> dir[k].side == size && InPools(k)
    ensures var r := Prepared(dir, folders, o, seed, t, size).files;
      forall k :: k in r ==> r[k].side == size && InPools(k)
  {
    PreparedEntries(dir, folders, {Man, Nat}, o, seed, t, size);
    var r := Prepared(dir, folders, o, seed, t, size).files;
    forall k | k in r && k !in dir
      ensures r[k].side == size && InPools(k)
    {
      assert Entry(r, k, size) && r[k].kind in {Man, Nat};
      PrefixInPools(k, r[k].kind);
    }
  }
}
