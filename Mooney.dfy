/** The Mooney thresholding session: one greyscale image at a time is blurred,
    thresholded to black and white, saved under its own name, and recorded in
    the parameter ledger `threshold_blur.csv`, with an in-session undo stack. */
module Mooney {
  import opened Optional
  import opened Text

  /** A greyscale raster as rows of 8-bit intensities. */
  type Image = seq<seq<int>>

  /** `cv2.GaussianBlur(img, (k, k), sigma)`: library numerics, left abstract. */
  type Blur = (Image, nat, real) -> Image

  const SigmaSliderMax: nat := 30
  const ThresholdMax: nat := 255
  const DefaultSigmaSlider: nat := 4
  const DefaultThreshold: int := 127
  const White: int := 255

  /** One ledger row: (filename, sigma, threshold). */
  datatype Row = Row(filename: string, sigma: real, threshold: int)

  /** One undo-stack entry: where the session was and what it saved. */
  datatype Entry = Entry(index: nat, filename: string, sigma: real, threshold: int)

  /** The sigma slider moves in half steps. */
  function SigmaOf(slider: nat): real {
    slider as real / 2.0
  }

  /** Python's `round(x / 2)`: the nearest integer, ties to the even one. */
  function HalfRoundEven(x: nat): (r: nat)
    ensures 2 * r <= x + 1 && x <= 2 * r + 1
    ensures x % 2 == 0 ==> 2 * r == x
    ensures x % 2 == 1 ==> r % 2 == 0
  {
    if x % 2 == 0 || (x / 2) % 2 == 0 then x / 2 else x / 2 + 1
  }

  /** `2 * round(3 * sigma) + 1` for sigma = slider / 2. */
  function KernelSize(slider: nat): (k: nat)
    ensures k % 2 == 1
    ensures slider > 0 ==> k >= 3
    ensures k - 1 <= 3 * slider + 1 && 3 * slider <= k
  {
    var h := HalfRoundEven(3 * slider);
    assert slider > 0 ==> h >= 1;
    2 * h + 1
  }

  /** One row of `cv2.threshold(img, t, 255, cv2.THRESH_BINARY)`. */
  function ThresholdRow(row: seq<int>, t: int): (r: seq<int>)
    ensures |r| == |row|
  {
    if row == [] then [] else [if row[0] > t then White else 0] + ThresholdRow(row[1..], t)
  }

  /** `cv2.threshold(img, t, 255, cv2.THRESH_BINARY)`. */
  function Threshold(img: Image, t: int): (r: Image)
    ensures |r| == |img|
  {
    if img == [] then [] else [ThresholdRow(img[0], t)] + Threshold(img[1..], t)
  }

  lemma {:induction false} ThresholdRowAt(row: seq<int>, t: int, j: nat)
    requires j < |row|
    ensures ThresholdRow(row, t)[j] == if row[j] > t then White else 0
  {
    if j > 0 {
      ThresholdRowAt(row[1..], t, j - 1);
    }
  }

  /** Thresholding keeps the length of every row. */
  lemma {:induction false} ThresholdShape(img: Image, t: int, i: nat)
    requires i < |img|
    ensures |Threshold(img, t)[i]| == |img[i]|
  {
    if i > 0 {
      ThresholdShape(img[1..], t, i - 1);
    }
  }

  /** Each pixel of the thresholded image is white exactly when the source
      pixel is above the threshold, and black otherwise. */
  lemma {:induction false} ThresholdAt(img: Image, t: int, i: nat, j: nat)
    requires i < |img| && j < |img[i]|
    ensures |Threshold(img, t)[i]| == |img[i]|
    ensures Threshold(img, t)[i][j] == if img[i][j] > t then White else 0
  {
    if i > 0 {
      ThresholdAt(img[1..], t, i - 1, j);
    } else {
      ThresholdRowAt(img[0], t, j);
    }
  }

  /** What is blurred before thresholding: nothing when sigma is 0. */
  function Blurred(img: Image, slider: nat, blur: Blur): Image {
    if slider > 0 then blur(img, KernelSize(slider), SigmaOf(slider)) else img
  }

  /** The image that is both previewed and saved: blurred when sigma > 0,
      then thresholded. */
  function MooneyImage(img: Image, slider: nat, t: int, blur: Blur): Image {
    Threshold(Blurred(img, slider, blur), t)
  }

  /** Every pixel of a Mooney image is black or white; with the sigma slider
      at 0 nothing is blurred and each pixel follows its source pixel. */
  lemma MooneyImageAt(img: Image, slider: nat, t: int, blur: Blur, i: nat, j: nat)
    requires var r := MooneyImage(img, slider, t, blur); i < |r| && j < |r[i]|
    ensures var p := MooneyImage(img, slider, t, blur)[i][j]; p == White || p == 0
    ensures slider == 0 ==>
      (i < |img| && j < |img[i]| && (MooneyImage(img, slider, t, blur)[i][j] == White <==> img[i][j] > t))
  {
    var src := Blurred(img, slider, blur);
    ThresholdShape(src, t, i);
    ThresholdAt(src, t, i, j);
  }

  /** With no blur, an all-black source gives an all-black image and an
      all-white source an all-white one at the default threshold. */
  lemma UniformSources(black: Image, white: Image, blur: Blur, i: nat, j: nat)
    requires forall i, j :: 0 <= i < |black| && 0 <= j < |black[i]| ==> black[i][j] == 0
    requires forall i, j :: 0 <= i < |white| && 0 <= j < |white[i]| ==> white[i][j] == White
    ensures var b := MooneyImage(black, 0, DefaultThreshold, blur);
      i < |b| && j < |b[i]| ==> b[i][j] == 0
    ensures var w := MooneyImage(white, 0, DefaultThreshold, blur);
      i < |w| && j < |w[i]| ==> w[i][j] == White
  {
    var b := MooneyImage(black, 0, DefaultThreshold, blur);
    var w := MooneyImage(white, 0, DefaultThreshold, blur);
    if i < |b| && j < |b[i]| {
      MooneyImageAt(black, 0, DefaultThreshold, blur, i, j);
    }
    if i < |w| && j < |w[i]| {
      MooneyImageAt(white, 0, DefaultThreshold, blur, i, j);
    }
  }

  // ---------------------------------------------------------------------
  // The ledger and the pending list

  function Filenames(rows: seq<Row>): (r: set<string>)
    ensures forall k :: 0 <= k < |rows| ==> rows[k].filename in r
  {
    if rows == [] then {} else {rows[0].filename} + Filenames(rows[1..])
  }

  /** A name is in the ledger only if some row carries it. */
  lemma {:induction false} FilenamesWitness(rows: seq<Row>, f: string)
    requires f in Filenames(rows)
    ensures exists k :: 0 <= k < |rows| && rows[k].filename == f
  {
    if rows[0].filename != f {
      FilenamesWitness(rows[1..], f);
      var k :| 0 <= k < |rows| - 1 && rows[1..][k].filename == f;
      assert rows[k + 1].filename == f;
    }
  }

  lemma {:induction false} FilenamesAppend(a: seq<Row>, b: seq<Row>)
    ensures Filenames(a + b) == Filenames(a) + Filenames(b)
  {
    if a == [] {
      assert a + b == b;
    } else {
      assert (a + b)[1..] == a[1..] + b;
      FilenamesAppend(a[1..], b);
    }
  }

  /** `sorted([f for f in listing if f.lower().endswith(".jpg")])` minus the
      names the ledger already holds. */
  function Pending(listing: seq<string>, rows: seq<Row>): seq<string> {
    NotIn(Sort(JpgNames(listing)), Filenames(rows))
  }

  /** The pending list is in `str` order and holds exactly the JPEG names
      of the listing that have no ledger row. */
  lemma PendingSpec(listing: seq<string>, rows: seq<Row>)
    requires Distinct(listing)
    ensures StrictlySorted(Pending(listing, rows))
    ensures forall f :: f in Pending(listing, rows) <==>
      f in listing && IsJpgIgnoreCase(f) && f !in Filenames(rows)
  {
    var jpgs := JpgNames(listing);
    SortSpec(jpgs);
    SameElements(Sort(jpgs), jpgs);
  }

  lemma SameElements(a: seq<string>, b: seq<string>)
    requires multiset(a) == multiset(b)
    ensures forall f :: f in a <==> f in b
  {
    forall f ensures f in a <==> f in b {
      assert f in a <==> f in multiset(a);
      assert f in b <==> f in multiset(b);
    }
  }

  /** `params_df[params_df["filename"] != f]`. */
  function Without(rows: seq<Row>, f: string): seq<Row> {
    if rows == [] then []
    else if rows[0].filename == f then Without(rows[1..], f)
    else [rows[0]] + Without(rows[1..], f)
  }

  /** Filtering out `f` removes exactly the name `f`, keeps only rows that
      were there, and changes nothing when no row names `f`. */
  lemma {:induction false} WithoutSpec(rows: seq<Row>, f: string)
    ensures Filenames(Without(rows, f)) == Filenames(rows) - {f}
    ensures forall k :: 0 <= k < |Without(rows, f)| ==> Without(rows, f)[k] in rows
    ensures f !in Filenames(rows) ==> Without(rows, f) == rows
  {
    if rows != [] {
      WithoutSpec(rows[1..], f);
      var r := Without(rows, f);
      forall k | 0 <= k < |r| ensures r[k] in rows {
        if rows[0].filename != f && k > 0 {
          assert r[k] == Without(rows[1..], f)[k - 1];
        }
      }
      if f !in Filenames(rows) {
        assert rows == [rows[0]] + rows[1..];
      }
    }
  }

  /** The row a save appends for an undo-stack entry. */
  function RowOf(e: Entry): Row {
    Row(e.filename, e.sigma, e.threshold)
  }

  function RowsOf(h: seq<Entry>): (r: seq<Row>)
    ensures |r| == |h|
    ensures forall k :: 0 <= k < |h| ==> r[k] == RowOf(h[k])
  {
    seq(|h|, k requires 0 <= k < |h| => RowOf(h[k]))
  }

  /** Removing a file's rows after its save takes back exactly the appended
      row, provided the name occurs nowhere earlier in the ledger. */
  lemma {:induction false} UndoDropsOnlyLastRow(earlier: seq<Row>, last: Row)
    requires last.filename !in Filenames(earlier)
    ensures Without(earlier + [last], last.filename) == earlier
  {
    if earlier == [] {
      assert earlier + [last] == [last];
    } else {
      assert (earlier + [last])[1..] == earlier[1..] + [last];
      UndoDropsOnlyLastRow(earlier[1..], last);
    }
  }

  /** The rows of the undo stack name the first files of the pending list,
      so none of them names a later file. */
  lemma HistoryNames(h: seq<Entry>, files: seq<string>, n: nat)
    requires |h| <= n < |files| && StrictlySorted(files)
    requires forall k :: 0 <= k < |h| ==> h[k].filename == files[k]
    ensures files[n] !in Filenames(RowsOf(h))
  {
    StrictlySortedIsDistinct(files);
    if files[n] in Filenames(RowsOf(h)) {
      FilenamesWitness(RowsOf(h), files[n]);
    }
  }

  // ---------------------------------------------------------------------
  // The session as a value, and one function per step of the window

  /** Every field of `MooneyApp` the steps read or write. */
  datatype Session = Session(
    listing: seq<string>,          // os.listdir of the greyscale folder
    readable: map<string, Image>,  // the names cv2.imread decodes
    mooney: map<string, Image>,    // the Mooney output folder
    csv: Option<seq<Row>>,         // threshold_blur.csv on disk
    params: seq<Row>,              // params_df
    imageFiles: seq<string>,
    index: nat,
    finished: bool,
    history: seq<Entry>,
    sigmaSlider: nat,
    thresholdSlider: int,
    preview: Option<View>,
    closed: bool)

  /** What the preview pane shows: the Mooney image of `filename` at these
      slider positions. */
  datatype View = View(filename: string, sigmaSlider: nat, thresholdSlider: int)

  /** The session invariant, relative to the ledger the pending list was
      computed from: the ledger is those rows followed by one row per undo
      entry, and the undo entries are the first `index` pending files. */
  ghost predicate Inv(s: Session, baseline: seq<Row>) {
    s.sigmaSlider <= SigmaSliderMax && 0 <= s.thresholdSlider <= ThresholdMax &&
    StrictlySorted(s.imageFiles) &&
    (forall f :: f in s.imageFiles ==> f !in Filenames(baseline)) &&
    s.index <= |s.imageFiles| && |s.history| == s.index &&
    (forall k :: 0 <= k < |s.history| ==>
      s.history[k].index == k && s.history[k].filename == s.imageFiles[k]) &&
    s.params == baseline + RowsOf(s.history) &&
    s.csv == Some(s.params)
  }

  /** What `update_preview` would draw now, if anything: nothing once
      finished or past the end, or when the file cannot be decoded. */
  function Rendered(s: Session): Option<View> {
    if !s.finished && s.index < |s.imageFiles| && s.imageFiles[s.index] in s.readable then
      Some(View(s.imageFiles[s.index], s.sigmaSlider, s.thresholdSlider))
    else None
  }

  /** `update_preview`. */
  function Previewed(s: Session): Session {
    var r := Rendered(s);
    if r.Some? then s.(preview := r) else s
  }

  /** `finish_processing`. */
  function Finished(s: Session): Session {
    if s.finished then s else s.(finished := true, closed := true)
  }

  /** `load_image`. */
  function Loaded(s: Session): Session {
    if s.index >= |s.imageFiles| then Finished(s)
    else Previewed(s.(sigmaSlider := DefaultSigmaSlider, thresholdSlider := DefaultThreshold))
  }

  /** Moving the sliders: the widgets keep their ranges, and `valueChanged`
      runs `update_preview`. */
  function SlidersMoved(s: Session, sigmaValue: nat, thresholdValue: int): Session {
    Previewed(s.(sigmaSlider := sigmaValue, thresholdSlider := thresholdValue))
  }

  /** `QSlider.setValue` keeps a value inside the slider's range. */
  function Clamp(x: int, lo: nat, hi: nat): (r: nat)
    requires lo <= hi
    ensures lo <= r <= hi
    ensures lo <= x <= hi ==> r == x
  {
    if x < lo then lo else if x > hi then hi else x
  }

  /** Python's `int(x)` on a float: truncation toward zero. */
  function Truncate(x: real): int {
    if x >= 0.0 then x.Floor else -((-x).Floor)
  }

  /** `load_or_choose_start`, run once from `__init__`: the ledger is read
      back when the file exists and the user chose to resume, and truncated
      otherwise. */
  function Started(listing: seq<string>, readable: map<string, Image>, mooney: map<string, Image>,
                   csv: Option<seq<Row>>, resumeChosen: bool): Session
  {
    var rows := if csv.Some? && resumeChosen then csv.value else [];
    var s := Opening(listing, readable, mooney, rows);
    if s.imageFiles == [] then s else Loaded(s)
  }

  /** What `reload_images` reads before deciding: the ledger file's rows
      (none when it is missing) and the pending list of the new folder. */
  function Rescanned(s: Session, listing: seq<string>, readable: map<string, Image>): Session
  {
    var rows := if s.csv.Some? then s.csv.value else [];
    s.(listing := listing, readable := readable, params := rows, imageFiles := Pending(listing, rows))
  }

  /** `reload_images`: with nothing pending the window closes, and the
      cursor, flag and undo stack stay as they were; otherwise the session
      restarts at the first pending file. */
  function Reloaded(s: Session, listing: seq<string>, readable: map<string, Image>): Session
  {
    var t := Rescanned(s, listing, readable);
    if t.imageFiles == [] then t.(closed := true)
    else Loaded(t.(index := 0, finished := false, history := []))
  }

  /** Whether `save_and_next` does anything. */
  predicate CanSave(s: Session) {
    !s.finished && s.index < |s.imageFiles| && s.imageFiles[s.index] in s.readable
  }

  /** `save_and_next`. */
  function Saved(s: Session, blur: Blur): Session {
    if !CanSave(s) then s else Loaded(Recorded(s, blur))
  }

  /** `undo`. The sliders are first set to the entry's values, and
      `load_image` then resets them; every preview the first setting
      triggers is redrawn by `load_image` under the same conditions. */
  function Undone(s: Session): Session {
    if s.history == [] then s else Loaded(Popped(s))
  }

  // ---------------------------------------------------------------------
  // What the steps promise

  /** `load_image` touches only the sliders, the preview, the flag and the
      window: it resets the sliders when a file is left to show, and
      finishes otherwise. */
  lemma LoadedFrame(s: Session)
    ensures var t := Loaded(s);
      t == s.(sigmaSlider := t.sigmaSlider, thresholdSlider := t.thresholdSlider, preview := t.preview,
              finished := t.finished, closed := t.closed)
    ensures var t := Loaded(s);
      s.index < |s.imageFiles| ==>
        t.sigmaSlider == DefaultSigmaSlider && t.thresholdSlider == DefaultThreshold && t.finished == s.finished
    ensures var t := Loaded(s);
      s.index >= |s.imageFiles| ==>
        t.sigmaSlider == s.sigmaSlider && t.thresholdSlider == s.thresholdSlider && t.finished
  {
  }

  /** `load_image` keeps the invariant. */
  lemma LoadedInv(s: Session, baseline: seq<Row>)
    requires Inv(s, baseline)
    ensures Inv(Loaded(s), baseline)
  {
    LoadedFrame(s);
  }

  /** The session `load_or_choose_start` builds before the first `load_image`. */
  function Opening(listing: seq<string>, readable: map<string, Image>, mooney: map<string, Image>,
                   rows: seq<Row>): Session
  {
    var pending := Pending(listing, rows);
    Session(listing, readable, mooney, Some(rows), rows, pending, 0, false, [],
            DefaultSigmaSlider, DefaultThreshold, None, pending == [])
  }

  lemma OpeningInv(listing: seq<string>, readable: map<string, Image>, mooney: map<string, Image>,
                   rows: seq<Row>)
    requires Distinct(listing)
    ensures Inv(Opening(listing, readable, mooney, rows), rows)
  {
    PendingSpec(listing, rows);
    assert RowsOf([]) == [];
    assert rows + [] == rows;
  }

  /** The session opened by `load_or_choose_start` satisfies the invariant
      over the rows it kept. */
  lemma StartedInv(listing: seq<string>, readable: map<string, Image>, mooney: map<string, Image>,
                   csv: Option<seq<Row>>, resumeChosen: bool)
    requires Distinct(listing)
    ensures var rows := if csv.Some? && resumeChosen then csv.value else [];
      Inv(Started(listing, readable, mooney, csv, resumeChosen), rows)
  {
    var rows := if csv.Some? && resumeChosen then csv.value else [];
    var s0 := Opening(listing, readable, mooney, rows);
    OpeningInv(listing, readable, mooney, rows);
    if s0.imageFiles != [] {
      LoadedInv(s0, rows);
    }
  }

  /** Starting over leaves the ledger empty and resuming keeps the file's
      rows; either way the cursor is 0, nothing is finished, the undo stack
      is empty, and the pending list is the unprocessed JPEG names in order. */
  lemma StartedState(listing: seq<string>, readable: map<string, Image>, mooney: map<string, Image>,
                     csv: Option<seq<Row>>, resumeChosen: bool)
    ensures var rows := if csv.Some? && resumeChosen then csv.value else [];
      var s := Started(listing, readable, mooney, csv, resumeChosen);
      && s.params == rows && s.csv == Some(rows) && s.mooney == mooney
      && s.imageFiles == Pending(listing, rows)
      && s.index == 0 && !s.finished && s.history == []
      && (s.closed <==> s.imageFiles == [])
  {
    var rows := if csv.Some? && resumeChosen then csv.value else [];
    var s0 := Opening(listing, readable, mooney, rows);
    if s0.imageFiles != [] {
      LoadedFrame(s0);
    }
  }

  /** The session a save builds before `load_image`. */
  function Recorded(s: Session, blur: Blur): Session
    requires CanSave(s)
  {
    var f := s.imageFiles[s.index];
    var e := Entry(s.index, f, SigmaOf(s.sigmaSlider), s.thresholdSlider);
    var rows := s.params + [RowOf(e)];
    s.(mooney := s.mooney[f := MooneyImage(s.readable[f], s.sigmaSlider, s.thresholdSlider, blur)],
       params := rows, csv := Some(rows), history := s.history + [e], index := s.index + 1)
  }

  /** A save keeps the invariant. */
  lemma SavedInv(s: Session, baseline: seq<Row>, blur: Blur)
    requires Inv(s, baseline)
    ensures Inv(Saved(s, blur), baseline)
  {
    if CanSave(s) {
      var f := s.imageFiles[s.index];
      var e := Entry(s.index, f, SigmaOf(s.sigmaSlider), s.thresholdSlider);
      var s1 := Recorded(s, blur);
      assert RowsOf(s.history + [e]) == RowsOf(s.history) + [RowOf(e)];
      assert Inv(s1, baseline);
      LoadedInv(s1, baseline);
    }
  }

  /** A save that happens appends exactly one ledger row for the current
      file, pushes the old cursor, advances by one, writes the Mooney image
      under the file's own name, and finishes exactly at the end of the
      list. When it cannot happen nothing changes. */
  lemma SavedState(s: Session, blur: Blur)
    requires s.index <= |s.imageFiles|
    ensures !CanSave(s) ==> Saved(s, blur) == s
    ensures CanSave(s) ==>
      var f := s.imageFiles[s.index];
      var e := Entry(s.index, f, SigmaOf(s.sigmaSlider), s.thresholdSlider);
      var t := Saved(s, blur);
      && t.params == s.params + [Row(f, SigmaOf(s.sigmaSlider), s.thresholdSlider)]
      && t.csv == Some(t.params)
      && t.history == s.history + [e]
      && t.index == s.index + 1
      && t.mooney == s.mooney[f := MooneyImage(s.readable[f], s.sigmaSlider, s.thresholdSlider, blur)]
      && (t.finished <==> t.index == |s.imageFiles|)
      && t.imageFiles == s.imageFiles
  {
    if CanSave(s) {
      LoadedFrame(Recorded(s, blur));
    }
  }

  /** The first half of `undo`: pop the stack, move the cursor back, drop
      the file's ledger rows and delete its output. */
  function Dropped(s: Session): Session
    requires s.history != []
  {
    var e := s.history[|s.history| - 1];
    var rows := Without(s.params, e.filename);
    s.(history := s.history[..|s.history| - 1], index := e.index, params := rows,
       csv := Some(rows), mooney := s.mooney - {e.filename})
  }

  /** `setValue(int(sigma * 2))` and `setValue(int(threshold))`. */
  function SlidersRestored(s: Session, e: Entry): Session {
    s.(sigmaSlider := Clamp(Truncate(e.sigma * 2.0), 0, SigmaSliderMax),
       thresholdSlider := Clamp(e.threshold, 0, ThresholdMax))
  }

  /** The session an undo builds before `load_image`. */
  function Popped(s: Session): Session
    requires s.history != []
  {
    SlidersRestored(Dropped(s), s.history[|s.history| - 1])
  }

  /** An undo keeps the invariant: the popped entry's row is the last one
      of the ledger and the only one with that name. */
  lemma UndoneInv(s: Session, baseline: seq<Row>)
    requires Inv(s, baseline)
    ensures Inv(Undone(s), baseline)
  {
    if s.history != [] {
      var h := s.history[..|s.history| - 1];
      var e := s.history[|s.history| - 1];
      assert RowsOf(s.history) == RowsOf(h) + [RowOf(e)];
      assert s.params == baseline + RowsOf(h) + [RowOf(e)];
      assert e.filename !in Filenames(baseline + RowsOf(h)) by {
        HistoryNames(h, s.imageFiles, |h|);
        FilenamesAppend(baseline, RowsOf(h));
      }
      UndoDropsOnlyLastRow(baseline + RowsOf(h), RowOf(e));
      var s1 := Popped(s);
      assert Inv(s1, baseline);
      LoadedInv(s1, baseline);
    }
  }

  /** Undo with an empty stack changes nothing. Otherwise the cursor goes
      back to the popped entry, that file's rows and output are removed,
      and the sliders end at their defaults. */
  lemma UndoneState(s: Session, baseline: seq<Row>)
    requires Inv(s, baseline)
    ensures s.history == [] ==> Undone(s) == s
    ensures s.history != [] ==>
      var e := s.history[|s.history| - 1];
      var t := Undone(s);
      && t.history == s.history[..|s.history| - 1]
      && t.index == e.index
      && t.params == Without(s.params, e.filename)
      && t.csv == Some(t.params)
      && t.mooney == s.mooney - {e.filename}
      && t.sigmaSlider == DefaultSigmaSlider && t.thresholdSlider == DefaultThreshold
      && t.finished == s.finished
  {
    if s.history != [] {
      var e := s.history[|s.history| - 1];
      assert e.index < |s.imageFiles|;
      LoadedFrame(Popped(s));
    }
  }

  /** The file under the cursor has no ledger row yet. */
  lemma CurrentUnrecorded(s: Session, baseline: seq<Row>)
    requires Inv(s, baseline) && s.index < |s.imageFiles|
    ensures s.imageFiles[s.index] !in Filenames(s.params)
  {
    HistoryNames(s.history, s.imageFiles, s.index);
    FilenamesAppend(baseline, RowsOf(s.history));
  }

  /** The sigma a save records, doubled and truncated, is the slider
      position it was read from. */
  lemma SigmaRoundTrip(slider: nat)
    requires slider <= SigmaSliderMax
    ensures Clamp(Truncate(SigmaOf(slider) * 2.0), 0, SigmaSliderMax) == slider
  {
    assert SigmaOf(slider) * 2.0 == slider as real;
  }

  /** Popping the entry a save pushed gives back the session before the
      save, including the slider positions the entry recorded, except for
      the file's output and what `load_image` did after the save. */
  lemma PopAfterSave(s: Session, baseline: seq<Row>, blur: Blur)
    requires Inv(s, baseline) && CanSave(s)
    ensures var t := Saved(s, blur);
      Popped(t) == s.(mooney := s.mooney - {s.imageFiles[s.index]},
                      finished := t.finished, closed := t.closed, preview := t.preview)
  {
    var f := s.imageFiles[s.index];
    var r := Recorded(s, blur);
    LoadedFrame(r);
    var t := Loaded(r);
    CurrentUnrecorded(s, baseline);
    UndoDropsOnlyLastRow(s.params, Row(f, SigmaOf(s.sigmaSlider), s.thresholdSlider));
    SigmaRoundTrip(s.sigmaSlider);
    assert t.history[..|t.history| - 1] == s.history;
  }

  /** Undo is the inverse of the save just before it: the ledger, the
      ledger file, the cursor and the undo stack come back; the output folder
      comes back whenever it held no stale copy of that name (a stale copy is
      overwritten by the save and deleted by the undo); the flag stays set
      if the save completed the list. */
  lemma UndoAfterSave(s: Session, baseline: seq<Row>, blur: Blur)
    requires Inv(s, baseline) && CanSave(s)
    ensures var f := s.imageFiles[s.index];
      var u := Undone(Saved(s, blur));
      u == s.(mooney := s.mooney - {f}, finished := s.index + 1 == |s.imageFiles|,
              sigmaSlider := DefaultSigmaSlider, thresholdSlider := DefaultThreshold,
              preview := u.preview, closed := u.closed)
    ensures var f := s.imageFiles[s.index];
      f !in s.mooney ==> Undone(Saved(s, blur)).mooney == s.mooney
  {
    var t := Saved(s, blur);
    LoadedFrame(Recorded(s, blur));
    PopAfterSave(s, baseline, blur);
    LoadedFrame(Popped(t));
  }

  /** What is saved is what is previewed: with a file to save, the pane
      shows that file at the current slider positions, and the save writes
      the Mooney image of exactly that file at exactly those positions. */
  lemma SavedAsPreviewed(s: Session, blur: Blur)
    requires CanSave(s)
    ensures var v := Previewed(s).preview;
      && v == Some(View(s.imageFiles[s.index], s.sigmaSlider, s.thresholdSlider))
      && Saved(Previewed(s), blur).mooney[v.value.filename]
         == MooneyImage(s.readable[v.value.filename], v.value.sigmaSlider, v.value.thresholdSlider, blur)
  {
    LoadedFrame(Recorded(Previewed(s), blur));
  }

  /** `finish_processing` is idempotent and always leaves the flag set. */
  lemma FinishedIdempotent(s: Session)
    ensures Finished(Finished(s)) == Finished(s)
    ensures Finished(s).finished && Finished(s).closed == (s.closed || !s.finished)
  {
  }

  /** Moving the sliders within their ranges keeps the invariant. */
  lemma SlidersMovedInv(s: Session, baseline: seq<Row>, sigmaValue: nat, thresholdValue: int)
    requires Inv(s, baseline)
    requires sigmaValue <= SigmaSliderMax && 0 <= thresholdValue <= ThresholdMax
    ensures Inv(SlidersMoved(s, sigmaValue, thresholdValue), baseline)
  {
  }

  /** A reload that finds pending files opens a session that satisfies
      the invariant over the ledger file's rows. */
  lemma ReloadedInv(s: Session, baseline: seq<Row>, listing: seq<string>, readable: map<string, Image>)
    requires Inv(s, baseline) && Distinct(listing)
    ensures var t := Reloaded(s, listing, readable);
      t.imageFiles != [] ==> Inv(t, s.params)
  {
    var t0 := Rescanned(s, listing, readable);
    if t0.imageFiles != [] {
      var t1 := t0.(index := 0, finished := false, history := []);
      PendingSpec(listing, s.params);
      assert RowsOf([]) == [];
      assert s.params + [] == s.params;
      assert Inv(t1, s.params);
      LoadedInv(t1, s.params);
    }
  }

  /** A reload that finds pending files starts over at the first of them
      with an empty undo stack; one that finds none closes the window and
      keeps the cursor and the undo stack. */
  lemma ReloadedState(s: Session, listing: seq<string>, readable: map<string, Image>)
    ensures var t := Reloaded(s, listing, readable);
      var rows := if s.csv.Some? then s.csv.value else [];
      && t.params == rows
      && t.imageFiles == Pending(listing, rows)
      && (t.imageFiles != [] ==> t.index == 0 && t.history == [] && !t.finished)
      && (t.imageFiles == [] ==> t.closed && t.index == s.index && t.history == s.history)
  {
    var t0 := Rescanned(s, listing, readable);
    if t0.imageFiles != [] {
      LoadedFrame(t0.(index := 0, finished := false, history := []));
    }
  }

  // ---------------------------------------------------------------------

  /** `MooneyApp`: the window's state. Dialog answers, the folder listing and
      what `cv2.imread` can decode come from outside; the sliders and the
      preview are fields. Each method's effect is the step function above,
      so `Inv` holds of the window after every step by the lemmas about
      those functions. */
  class MooneyApp {
    var listing: seq<string>
    var readable: map<string, Image>
    const blur: Blur

    var mooney: map<string, Image>
    var csv: Option<seq<Row>>
    var params: seq<Row>
    var imageFiles: seq<string>
    var index: nat
    var finished: bool
    var history: seq<Entry>
    var sigmaSlider: nat
    var thresholdSlider: int
    var preview: Option<View>
    var closed: bool

    function State(): Session
      reads this
    {
      Session(listing, readable, mooney, csv, params, imageFiles, index, finished, history,
              sigmaSlider, thresholdSlider, preview, closed)
    }

    /** `__init__`, which runs `load_or_choose_start`. */
    constructor (greyListing: seq<string>, greyReadable: map<string, Image>, gaussian: Blur,
                 outputDir: map<string, Image>, csvFile: Option<seq<Row>>, resumeChosen: bool)
      ensures blur == gaussian
      ensures State() == Started(greyListing, greyReadable, outputDir, csvFile, resumeChosen)
    {
      listing, readable, blur := greyListing, greyReadable, gaussian;
      mooney := outputDir;
      var rows := if csvFile.Some? && resumeChosen then csvFile.value else [];
      params := rows;
      csv := Some(rows);
      var pending := Pending(greyListing, rows);
      imageFiles := pending;
      index, finished, history := 0, false, [];
      sigmaSlider, thresholdSlider := DefaultSigmaSlider, DefaultThreshold;
      preview := None;
      closed := pending == [];
      new;
      if !closed {
        LoadImage();
      }
    }

    method Reload(greyListing: seq<string>, greyReadable: map<string, Image>)
      modifies this
      ensures State() == Reloaded(old(State()), greyListing, greyReadable)
    {
      Rescan(greyListing, greyReadable);
      ghost var t := State();
      if imageFiles == [] {
        closed := true;
        assert State() == t.(closed := true);
        return;
      }
      index, finished, history := 0, false, [];
      assert State() == t.(index := 0, finished := false, history := []);
      LoadImage();
    }

    /** The first half of `reload_images`: re-read the ledger file and
        list the new folder. */
    method Rescan(greyListing: seq<string>, greyReadable: map<string, Image>)
      modifies this`listing, this`readable, this`params, this`imageFiles
      ensures State() == Rescanned(old(State()), greyListing, greyReadable)
    {
      var rows := if csv.Some? then csv.value else [];
      listing, readable, params, imageFiles := greyListing, greyReadable, rows, Pending(greyListing, rows);
    }

    method UpdatePreview()
      modifies this`preview
      ensures State() == Previewed(old(State()))
    {
      if finished || index >= |imageFiles| {
        return;
      }
      var name := imageFiles[index];
      if name !in readable {
        return;
      }
      preview := Some(View(name, sigmaSlider, thresholdSlider));
    }

    method SetSliders(sigmaValue: nat, thresholdValue: int)
      requires sigmaValue <= SigmaSliderMax && 0 <= thresholdValue <= ThresholdMax
      modifies this`sigmaSlider, this`thresholdSlider, this`preview
      ensures State() == SlidersMoved(old(State()), sigmaValue, thresholdValue)
    {
      sigmaSlider, thresholdSlider := sigmaValue, thresholdValue;
      UpdatePreview();
    }

    method LoadImage()
      modifies this`sigmaSlider, this`thresholdSlider, this`preview, this`finished, this`closed
      ensures State() == Loaded(old(State()))
    {
      if index >= |imageFiles| {
        FinishProcessing();
        return;
      }
      sigmaSlider, thresholdSlider := DefaultSigmaSlider, DefaultThreshold;
      UpdatePreview();
    }

    method FinishProcessing()
      modifies this`finished, this`closed
      ensures State() == Finished(old(State()))
    {
      if finished {
        return;
      }
      finished := true;
      closed := true;
    }

    method Save()
      modifies this
      ensures State() == Saved(old(State()), blur)
    {
      if finished || index >= |imageFiles| {
        return;
      }
      var f := imageFiles[index];
      if f !in readable {
        return;
      }
      ghost var s := State();
      mooney := mooney[f := MooneyImage(readable[f], sigmaSlider, thresholdSlider, blur)];
      var e := Entry(index, f, SigmaOf(sigmaSlider), thresholdSlider);
      params := params + [RowOf(e)];
      csv := Some(params);
      history := history + [e];
      index := index + 1;
      assert State() == Recorded(s, blur);
      LoadImage();
    }

    method Undo()
      modifies this
      ensures State() == Undone(old(State()))
    {
      if history == [] {
        return;
      }
      Pop();
      LoadImage();
    }

    /** The first half of `undo`. */
    method Pop()
      requires history != []
      modifies this`history, this`index, this`params, this`csv, this`mooney, this`sigmaSlider,
               this`thresholdSlider
      ensures State() == Popped(old(State()))
    {
      var e := history[|history| - 1];
      Drop();
      RestoreSliders(e);
    }

    method Drop()
      requires history != []
      modifies this`history, this`index, this`params, this`csv, this`mooney
      ensures State() == Dropped(old(State()))
    {
      var e := history[|history| - 1];
      var rows := Without(params, e.filename);
      history, index, params, csv, mooney :=
        history[..|history| - 1], e.index, rows, Some(rows), mooney - {e.filename};
    }

    method RestoreSliders(e: Entry)
      modifies this`sigmaSlider, this`thresholdSlider
      ensures State() == SlidersRestored(old(State()), e)
    {
      sigmaSlider := Clamp(Truncate(e.sigma * 2.0), 0, SigmaSliderMax);
      thresholdSlider := Clamp(e.threshold, 0, ThresholdMax);
    }
  }
}
