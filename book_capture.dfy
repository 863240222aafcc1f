/** The book-capture exercise of the object-detection page: from each frame's
    detections, remember whether a book is in view and the bounding box of the
    best-scoring one; on demand crop that box out of the video frame into a PNG
    file; keep the list of captured files, removable by id. */
module BookCapture {
  import opened Js

  /** `[x, y, width, height]` in video pixels. */
  datatype BBox = BBox(x: real, y: real, width: real, height: real)

  /** One detection of the model: its box, its class and its score. */
  datatype Detection = Detection(bbox: BBox, category: string, score: real)

  /** The source rectangle handed to `drawImage`. */
  datatype Crop = Crop(sx: real, sy: real, sw: real, sh: real)

  /** The PNG bytes the canvas encoder produced. */
  type Blob = seq<bv8>

  datatype CapturedFile = CapturedFile(id: int, blob: Blob, filename: string, objectUrl: string)

  const BookLabel: string := "book"

  predicate IsBook(d: Detection)
  {
    d.category == BookLabel
  }

  /** `detections.filter((d) => d.class === "book")`. */
  function Books(ds: seq<Detection>): (books: seq<Detection>)
    ensures |books| <= |ds|
  {
    if ds == [] then []
    else (if IsBook(ds[0]) then [ds[0]] else []) + Books(ds[1..])
  }

  /** The filter keeps only books, all taken from the detections. */
  lemma {:induction false} BooksAreBooks(ds: seq<Detection>)
    ensures forall d :: d in Books(ds) ==> d in ds && IsBook(d)
  {
    if ds != [] {
      BooksAreBooks(ds[1..]);
    }
  }

  /** `books.reduce((a, b) => (a.score >= b.score ? a : b))`: a left fold that
      keeps the accumulator unless the next book scores strictly higher. */
  function Best(books: seq<Detection>): Detection
    requires books != []
  {
    BestFrom(books[0], books[1..])
  }

  function BestFrom(acc: Detection, rest: seq<Detection>): Detection
    decreases |rest|
  {
    if rest == [] then acc
    else BestFrom(if acc.score >= rest[0].score then acc else rest[0], rest[1..])
  }

  /** s[i] has the highest score in s, and every earlier entry scores strictly
      lower: the first maximum. */
  ghost predicate FirstMax(s: seq<Detection>, i: nat)
  {
    && i < |s|
    && (forall j :: 0 <= j < |s| ==> s[j].score <= s[i].score)
    && (forall j :: 0 <= j < i ==> s[j].score < s[i].score)
  }

  /** Folding the rest of s into the first maximum of a prefix of s gives the
      first maximum of all of s. */
  lemma {:induction false} BestFromIsFirstMax(s: seq<Detection>, a: nat, n: nat) returns (i: nat)
    requires n <= |s| && FirstMax(s[..n], a)
    ensures FirstMax(s, i) && BestFrom(s[a], s[n..]) == s[i]
    decreases |s| - n
  {
    if n == |s| {
      assert s[..n] == s;
      i := a;
    } else {
      var next := if s[a].score >= s[n].score then a else n;
      assert FirstMax(s[..n + 1], next);
      assert s[n..][1..] == s[n + 1..];
      i := BestFromIsFirstMax(s, next, n + 1);
    }
  }

  /** The reduce returns the first book of maximal score: ties go to the
      earliest, because the fold keeps its accumulator on `>=`. */
  lemma BestIsFirstMax(books: seq<Detection>) returns (i: nat)
    requires books != []
    ensures FirstMax(books, i) && Best(books) == books[i]
  {
    assert FirstMax(books[..1], 0);
    i := BestFromIsFirstMax(books, 0, 1);
  }

  /** The number of books among the first k detections: where ds[k], if it is
      a book, sits in Books(ds). */
  function Rank(ds: seq<Detection>, k: nat): nat
    requires k <= |ds|
  {
    |Books(ds[..k])|
  }

  lemma {:induction false} BooksAppend(a: seq<Detection>, b: seq<Detection>)
    ensures Books(a + b) == Books(a) + Books(b)
  {
    if a == [] {
      assert a + b == b;
    } else {
      var head := if IsBook(a[0]) then [a[0]] else [];
      assert (a + b)[0] == a[0] && (a + b)[1..] == a[1..] + b;
      BooksAppend(a[1..], b);
      calc {
        Books(a + b);
        head + Books(a[1..] + b);
        head + (Books(a[1..]) + Books(b));
        { assert head + (Books(a[1..]) + Books(b)) == (head + Books(a[1..])) + Books(b); }
        (head + Books(a[1..])) + Books(b);
      }
    }
  }

  lemma BooksSingleton(d: Detection)
    ensures Books([d]) == if IsBook(d) then [d] else []
  {
    assert [d][1..] == [];
  }

  /** Books keeps the order of the detections: a book at position k of ds is
      at position Rank(ds, k) of Books(ds). */
  lemma BooksAt(ds: seq<Detection>, k: nat)
    requires k < |ds| && IsBook(ds[k])
    ensures Rank(ds, k) < |Books(ds)| && Books(ds)[Rank(ds, k)] == ds[k]
    ensures Rank(ds, k + 1) == Rank(ds, k) + 1
  {
    assert ds == ds[..k] + ds[k..];
    BooksAppend(ds[..k], ds[k..]);
    assert ds[..k + 1] == ds[..k] + [ds[k]];
    BooksAppend(ds[..k], [ds[k]]);
    BooksSingleton(ds[k]);
  }

  lemma {:induction false} RankMonotone(ds: seq<Detection>, j: nat, k: nat)
    requires j <= k <= |ds|
    ensures Rank(ds, j) <= Rank(ds, k)
  {
    assert ds[..k] == ds[..j] + ds[j..k];
    BooksAppend(ds[..j], ds[j..k]);
  }

  /** Every entry of Books(ds) comes from a book of ds at the matching rank. */
  lemma {:induction false} BooksSource(ds: seq<Detection>, m: nat) returns (k: nat)
    requires m < |Books(ds)|
    ensures k < |ds| && IsBook(ds[k]) && Rank(ds, k) == m
  {
    assert ds[..|ds|] == ds;
    assert ds[..0] == [];
    k := 0;
    while Rank(ds, k + 1) <= m
      invariant k < |ds| && Rank(ds, k) <= m
      decreases |ds| - k
    {
      k := k + 1;
    }
    assert ds[..k + 1] == ds[..k] + [ds[k]];
    BooksAppend(ds[..k], [ds[k]]);
    BooksSingleton(ds[k]);
  }

  /** The state `detectFrame` derives from one frame's detections:
      `hasBook` and `bookBbox` (null when there is no book). */
  datatype Sighting = Sighting(hasBook: bool, bookBbox: Option<BBox>)

  function Sight(ds: seq<Detection>): Sighting
  {
    var books := Books(ds);
    if |books| > 0 then Sighting(true, Some(Best(books).bbox))
    else Sighting(false, None)
  }

  /** `hasBook` holds exactly when some detection is a book, and `bookBbox`
      is null exactly when `hasBook` is false. */
  lemma SightHasBook(ds: seq<Detection>)
    ensures Sight(ds).hasBook <==> exists k :: 0 <= k < |ds| && IsBook(ds[k])
    ensures Sight(ds).hasBook <==> Sight(ds).bookBbox.Some?
  {
    if k :| 0 <= k < |ds| && IsBook(ds[k]) {
      BooksAt(ds, k);
    }
    if |Books(ds)| > 0 {
      var k := BooksSource(ds, 0);
    }
  }

  /** With a book in view, `bookBbox` is the box of the book k whose score no
      book beats and which no earlier book ties. */
  lemma SightFirstBest(ds: seq<Detection>) returns (k: nat)
    requires Sight(ds).hasBook
    ensures k < |ds| && IsBook(ds[k]) && Sight(ds).bookBbox == Some(ds[k].bbox)
    ensures forall j :: 0 <= j < |ds| && IsBook(ds[j]) ==> ds[j].score <= ds[k].score
    ensures forall j :: 0 <= j < k && IsBook(ds[j]) ==> ds[j].score < ds[k].score
  {
    var i := BestIsFirstMax(Books(ds));
    k := BooksSource(ds, i);
    BooksAt(ds, k);
    NoBookScoresHigher(ds, k);
    NoEarlierBookTies(ds, k);
  }

  lemma NoBookScoresHigher(ds: seq<Detection>, k: nat)
    requires k < |ds| && IsBook(ds[k]) && FirstMax(Books(ds), Rank(ds, k))
    ensures forall j :: 0 <= j < |ds| && IsBook(ds[j]) ==> ds[j].score <= ds[k].score
  {
    BooksAt(ds, k);
    forall j | 0 <= j < |ds| && IsBook(ds[j])
      ensures ds[j].score <= ds[k].score
    {
      BooksAt(ds, j);
    }
  }

  lemma NoEarlierBookTies(ds: seq<Detection>, k: nat)
    requires k < |ds| && IsBook(ds[k]) && FirstMax(Books(ds), Rank(ds, k))
    ensures forall j :: 0 <= j < k && IsBook(ds[j]) ==> ds[j].score < ds[k].score
  {
    BooksAt(ds, k);
    forall j | 0 <= j < k && IsBook(ds[j])
      ensures ds[j].score < ds[k].score
    {
      EarlierBookRanksLower(ds, j, k);
      FirstMaxBefore(Books(ds), Rank(ds, k), Rank(ds, j));
    }
  }

  lemma EarlierBookRanksLower(ds: seq<Detection>, j: nat, k: nat)
    requires j < k < |ds| && IsBook(ds[j])
    ensures Rank(ds, j) < Rank(ds, k) && Rank(ds, j) < |Books(ds)| && Books(ds)[Rank(ds, j)] == ds[j]
  {
    BooksAt(ds, j);
    RankMonotone(ds, j + 1, k);
  }

  lemma FirstMaxBefore(s: seq<Detection>, i: nat, m: nat)
    requires FirstMax(s, i) && m < i
    ensures s[m].score < s[i].score
  {
  }

  /** `Math.max(0, x)`, `Math.max(0, y)`, `Math.max(1, width)`,
      `Math.max(1, height)`: the origin is pushed into the frame and the size
      kept at least one pixel; there is no upper clamp. */
  function CropOf(b: BBox): (c: Crop)
    ensures c.sx >= 0.0 && c.sy >= 0.0 && c.sw >= 1.0 && c.sh >= 1.0
    ensures c.sx >= b.x && c.sy >= b.y && c.sw >= b.width && c.sh >= b.height
    ensures (c.sx == b.x || c.sx == 0.0) && (c.sy == b.y || c.sy == 0.0)
    ensures (c.sw == b.width || c.sw == 1.0) && (c.sh == b.height || c.sh == 1.0)
  {
    Crop(if b.x > 0.0 then b.x else 0.0,
         if b.y > 0.0 then b.y else 0.0,
         if b.width > 1.0 then b.width else 1.0,
         if b.height > 1.0 then b.height else 1.0)
  }

  /** A box already inside those bounds is cropped as it is, and cropping a
      crop changes nothing. */
  lemma CropKeepsValidBoxes(b: BBox)
    ensures b.x >= 0.0 && b.y >= 0.0 && b.width >= 1.0 && b.height >= 1.0 ==>
      CropOf(b) == Crop(b.x, b.y, b.width, b.height)
    ensures var c := CropOf(b); CropOf(BBox(c.sx, c.sy, c.sw, c.sh)) == c
  {
  }

  /** The file name `book-capture-${Date.now()}.png`. */
  function CaptureName(stamp: nat): string
  {
    "book-capture-" + Decimal(stamp) + ".png"
  }

  /** Capture names of different instants differ. */
  lemma CaptureNameInjective(m: nat, n: nat)
    requires CaptureName(m) == CaptureName(n)
    ensures m == n
  {
    var p := "book-capture-";
    assert CaptureName(m)[|p|..|CaptureName(m)| - 4] == Decimal(m);
    assert CaptureName(n)[|p|..|CaptureName(n)| - 4] == Decimal(n);
    DecimalInjective(m, n);
  }

  /** The position of the first file with that id, or |files| when none has it. */
  function FirstIndexOf(files: seq<CapturedFile>, id: int): (i: nat)
    ensures i <= |files|
    ensures i < |files| ==> files[i].id == id
    ensures forall j :: 0 <= j < i ==> files[j].id != id
  {
    if files == [] then 0
    else if files[0].id == id then 0
    else 1 + FirstIndexOf(files[1..], id)
  }

  /** `prev.find((f) => f.id === id)`: the first file with that id. */
  function FindById(files: seq<CapturedFile>, id: int): (r: Option<CapturedFile>)
    ensures r.None? <==> forall i :: 0 <= i < |files| ==> files[i].id != id
    ensures r.Some? ==> r.value.id == id
    ensures r.Some? ==> exists i :: 0 <= i < |files| && files[i] == r.value && (forall j :: 0 <= j < i ==> files[j].id != id)
  {
    var i := FirstIndexOf(files, id);
    if i < |files| then Some(files[i]) else None
  }

  /** `prev.filter((f) => f.id !== id)`. */
  function WithoutId(files: seq<CapturedFile>, id: int): (r: seq<CapturedFile>)
    ensures |r| <= |files|
    ensures forall f :: f in r <==> f in files && f.id != id
  {
    if files == [] then []
    else (if files[0].id != id then [files[0]] else []) + WithoutId(files[1..], id)
  }

  lemma {:induction false} WithoutIdAppend(a: seq<CapturedFile>, b: seq<CapturedFile>, id: int)
    ensures WithoutId(a + b, id) == WithoutId(a, id) + WithoutId(b, id)
  {
    if a == [] {
      assert a + b == b;
    } else {
      assert (a + b)[1..] == a[1..] + b;
      WithoutIdAppend(a[1..], b, id);
    }
  }

  /** Removing an id no file has changes nothing. */
  lemma {:induction false} WithoutAbsentId(files: seq<CapturedFile>, id: int)
    requires forall i :: 0 <= i < |files| ==> files[i].id != id
    ensures WithoutId(files, id) == files
  {
    if files != [] {
      WithoutAbsentId(files[1..], id);
    }
  }

  /** Removing the id of a file just appended, when no earlier file has it,
      gives back the list as it was before the capture. */
  lemma CaptureThenRemove(files: seq<CapturedFile>, f: CapturedFile)
    requires forall i :: 0 <= i < |files| ==> files[i].id != f.id
    ensures WithoutId(files + [f], f.id) == files
  {
    WithoutIdAppend(files, [f], f.id);
    WithoutAbsentId(files, f.id);
    assert WithoutId([f], f.id) == [] by {
      assert [f][1..] == [];
    }
  }

  /** The component's state, and the object URLs handed to
      `URL.revokeObjectURL`. */
  class Practice {
    var hasBook: bool
    var bookBbox: Option<BBox>
    var capturedFiles: seq<CapturedFile>
    var revokedUrls: seq<string>

    ghost predicate Valid()
      reads this
    {
      hasBook <==> bookBbox.Some?
    }

    constructor ()
      ensures Valid() && !hasBook && bookBbox == None
      ensures capturedFiles == [] && revokedUrls == []
    {
      hasBook := false;
      bookBbox := None;
      capturedFiles := [];
      revokedUrls := [];
    }

    /** The part of `detectFrame` that follows a successful `model.detect`. */
    method OnDetections(ds: seq<Detection>)
      requires Valid()
      modifies this
      ensures Valid()
      ensures hasBook == Sight(ds).hasBook && bookBbox == Sight(ds).bookBbox
      ensures capturedFiles == old(capturedFiles) && revokedUrls == old(revokedUrls)
    {
      var books := Books(ds);
      if |books| > 0 {
        hasBook := true;
        bookBbox := Some(Best(books).bbox);
      } else {
        hasBook := false;
        bookBbox := None;
      }
    }

    /** `captureScreenshot`, with the `toBlob` callback run to completion.
        `videoPresent` is `videoRef.current`; `blob` is what the encoder hands
        the callback; `nameStamp` and `idStamp` are the two `Date.now()` calls;
        `objectUrl` is what `URL.createObjectURL` returns. `drawn` is the
        rectangle drawn onto the scratch canvas, if any. */
    method CaptureScreenshot(videoPresent: bool, blob: Option<Blob>, nameStamp: nat, idStamp: nat, objectUrl: string)
      returns (drawn: Option<Crop>)
      requires Valid()
      modifies this
      ensures Valid()
      ensures hasBook == old(hasBook) && bookBbox == old(bookBbox) && revokedUrls == old(revokedUrls)
      ensures drawn.Some? <==> old(hasBook) && videoPresent
      ensures drawn.Some? ==> drawn.value == CropOf(old(bookBbox).value)
      ensures capturedFiles ==
        if drawn.Some? && blob.Some?
        then old(capturedFiles) + [CapturedFile(idStamp, blob.value, CaptureName(nameStamp), objectUrl)]
        else old(capturedFiles)
    {
      if !hasBook || bookBbox.None? || !videoPresent {
        return None;
      }
      var crop := CropOf(bookBbox.value);
      drawn := Some(crop);
      if blob.None? {
        return;
      }
      var filename := CaptureName(nameStamp);
      capturedFiles := capturedFiles + [CapturedFile(idStamp, blob.value, filename, objectUrl)];
    }

    /** `removeCaptured(id)`: revoke the URL of the first file with that id, if
        any, and drop every file with that id. */
    method RemoveCaptured(id: int)
      requires Valid()
      modifies this
      ensures Valid()
      ensures hasBook == old(hasBook) && bookBbox == old(bookBbox)
      ensures capturedFiles == WithoutId(old(capturedFiles), id)
      ensures revokedUrls ==
        match FindById(old(capturedFiles), id)
        case None => old(revokedUrls)
        case Some(item) => old(revokedUrls) + [item.objectUrl]
    {
      var item := FindById(capturedFiles, id);
      if item.Some? {
        revokedUrls := revokedUrls + [item.value.objectUrl];
      }
      capturedFiles := WithoutId(capturedFiles, id);
    }
  }
}
