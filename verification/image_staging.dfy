/** The product form's image list: drafts for images the product already
    has and for files the user selects, the upload gate (count cap, type
    allow-list, size ceiling) and removal.

    Browser resources become values: a preview handle from
    `URL.createObjectURL` is `Blob(serial)`, drawn from the counter
    `nextBlob`; the staging state logs every handle it acquires and every
    handle it releases (`URL.revokeObjectURL`). `Date.now()` is read once per
    accepted file; an upload takes those readings as its `clock` parameter,
    `clock(i)` being the reading taken for the `i`-th accepted file (counted
    among the accepted files only, as the `map` over the valid files does). */
module ImageStaging {
  import opened Wrappers
  import opened Seqs

  /** A file the user selected: its name, declared MIME type and size in bytes. */
  datatype File = File(name: string, mimeType: string, size: nat)

  /** A remote image URL, or an object URL for a local file. */
  datatype Url = Remote(address: string) | Blob(serial: nat)

  /** `existing-<index>` for an image of the product, `new-<stamp>-<index>`
      for a selected file. */
  datatype ImageId = ExistingId(index: nat) | NewId(stamp: int, index: nat)

  datatype ImageDraft = ImageDraft(
    id: ImageId,
    file: Option<File>,
    url: Url,
    isExisting: bool,
    preview: Option<Url>)

  datatype Staging = Staging(
    images: seq<ImageDraft>,
    nextBlob: nat,
    acquired: seq<Url>,
    released: seq<Url>)

  /** Why a file or batch was turned away, as the notification reports it. */
  datatype Notice = TooManyImages | InvalidType(fileName: string) | TooLarge(fileName: string)

  const MaxFileSize: nat := 5 * 1024 * 1024
  const AllowedFileTypes: seq<string> := ["image/jpeg", "image/png", "image/webp", "image/jpg"]
  const MaxImages: nat := 8

  /** A file passes the type allow-list and the size ceiling: one of the
      four image types, and at most 5 MiB. */
  predicate Accepted(f: File)
    ensures Accepted(f) <==>
              && (f.mimeType == "image/jpeg" || f.mimeType == "image/png"
                  || f.mimeType == "image/webp" || f.mimeType == "image/jpg")
              && f.size <= 5_242_880
  {
    f.mimeType in AllowedFileTypes && f.size <= MaxFileSize
  }

  /** Drafts for the product's image URLs (the initialising effect). */
  function InitialImages(urls: seq<string>): (r: seq<ImageDraft>)
    ensures |r| == |urls|
    ensures forall i :: 0 <= i < |r| ==>
              r[i].isExisting && DraftShape(r[i]) && r[i].url == Remote(urls[i])
    ensures UniqueIds(r)
    ensures LiveHandles(r) == []
  {
    var r := seq(|urls|, i requires 0 <= i < |urls| =>
      ImageDraft(ExistingId(i), None, Remote(urls[i]), true, Some(Remote(urls[i]))));
    LiveHandlesOfExisting(r);
    r
  }

  /** The staging state once the initialising effect has run: no handle
      acquired yet. */
  function InitialStaging(urls: seq<string>): Staging {
    Staging(InitialImages(urls), 0, [], [])
  }

  /** The files of a batch that pass, in batch order. */
  function AcceptedFiles(batch: seq<File>): (r: seq<File>)
    ensures |r| <= |batch|
    ensures forall f :: f in r <==> f in batch && Accepted(f)
    ensures multiset(r) <= multiset(batch)
  {
    if batch == [] then []
    else
      assert batch == [batch[0]] + batch[1..];
      (if Accepted(batch[0]) then [batch[0]] else []) + AcceptedFiles(batch[1..])
  }

  /** One notice per rejected file, in batch order: the type check comes
      first, so a file of the wrong type is never also reported too large. */
  function Rejections(batch: seq<File>): (r: seq<Notice>)
    ensures |r| + |AcceptedFiles(batch)| == |batch|
    ensures forall f :: f in batch && f.mimeType !in AllowedFileTypes ==> InvalidType(f.name) in r
    ensures forall f :: f in batch && f.mimeType in AllowedFileTypes && f.size > MaxFileSize ==>
              TooLarge(f.name) in r
  {
    if batch == [] then []
    else
      var f := batch[0];
      assert batch == [f] + batch[1..];
      (if f.mimeType !in AllowedFileTypes then [InvalidType(f.name)]
       else if f.size > MaxFileSize then [TooLarge(f.name)]
       else []) + Rejections(batch[1..])
  }

  /** The notices of a batch are those of its parts, in batch order. */
  lemma {:induction false} RejectionsConcat(a: seq<File>, b: seq<File>)
    ensures Rejections(a + b) == Rejections(a) + Rejections(b)
  {
    if a == [] {
      assert a + b == b;
    } else {
      var f := a[0];
      var h := if f.mimeType !in AllowedFileTypes then [InvalidType(f.name)]
               else if f.size > MaxFileSize then [TooLarge(f.name)]
               else [];
      assert (a + b)[0] == f && (a + b)[1..] == a[1..] + b;
      assert Rejections(a + b) == h + Rejections(a[1..] + b);
      assert Rejections(a) == h + Rejections(a[1..]);
      RejectionsConcat(a[1..], b);
      NoticesAssoc(h, Rejections(a[1..]), Rejections(b));
    }
  }

  lemma NoticesAssoc(h: seq<Notice>, x: seq<Notice>, y: seq<Notice>)
    ensures h + (x + y) == (h + x) + y
  {
  }

  /** A single file gets at most one notice: a wrong type is reported as
      such and never also as too large. */
  lemma RejectionsOne(f: File)
    ensures f.mimeType !in AllowedFileTypes ==> Rejections([f]) == [InvalidType(f.name)]
    ensures f.mimeType in AllowedFileTypes && f.size > MaxFileSize ==> Rejections([f]) == [TooLarge(f.name)]
    ensures Accepted(f) ==> Rejections([f]) == []
  {
  }

  /** The drafts for the accepted files: new images, one per file in order,
      with ids that carry the clock reading and the position among the
      accepted files (so they differ from each other), holding consecutive
      fresh handles from `base`. */
  function NewDrafts(files: seq<File>, clock: nat -> int, base: nat): (r: seq<ImageDraft>)
    ensures |r| == |files|
    ensures forall i :: 0 <= i < |r| ==>
              && !r[i].isExisting && DraftShape(r[i])
              && r[i].file == Some(files[i]) && r[i].url == Blob(base + i)
              && r[i].id == NewId(clock(i), i)
    ensures UniqueIds(r)
    ensures LiveHandles(r) == Blobs(base, |files|)
  {
    var r := seq(|files|, i requires 0 <= i < |files| =>
      ImageDraft(NewId(clock(i), i), Some(files[i]), Blob(base + i), false, Some(Blob(base + i))));
    LiveHandlesOfFresh(r, base);
    r
  }

  /** The handles `Blob(base)` up to but excluding `Blob(base + n)`. */
  function Blobs(base: nat, n: nat): (r: seq<Url>)
    ensures |r| == n
    ensures forall i :: 0 <= i < n ==> r[i] == Blob(base + i)
  {
    seq(n, i requires 0 <= i < n => Blob(base + i))
  }

  datatype Upload = Upload(staging: Staging, accepted: nat, notices: seq<Notice>)

  /** `handleImageUpload`. A batch that would take the list past eight images
      is refused whole, counted before any file is filtered. Otherwise each
      file that passes gets a new draft with a fresh handle, appended after the
      current drafts in batch order, and each file that fails gets a notice
      without stopping the others. */
  function UploadImages(st: Staging, batch: seq<File>, clock: nat -> int): (u: Upload)
    ensures |st.images| + |batch| > MaxImages ==>
              u.staging == st && u.accepted == 0 && u.notices == [TooManyImages]
    ensures |st.images| + |batch| <= MaxImages ==>
              && u.accepted == |AcceptedFiles(batch)|
              && |u.staging.images| == |st.images| + u.accepted <= MaxImages
              && u.staging.images[..|st.images|] == st.images
              && u.staging.released == st.released
              && u.notices == Rejections(batch)
    ensures |u.staging.images| <= MaxImages || u.staging.images == st.images
    ensures forall i :: |st.images| <= i < |u.staging.images| ==>
              && !u.staging.images[i].isExisting
              && u.staging.images[i].file == Some(AcceptedFiles(batch)[i - |st.images|])
  {
    if |st.images| + |batch| > MaxImages then Upload(st, 0, [TooManyImages])
    else
      var valid := AcceptedFiles(batch);
      var drafts := NewDrafts(valid, clock, st.nextBlob);
      var st' := Staging(st.images + drafts, st.nextBlob + |valid|,
                         st.acquired + Blobs(st.nextBlob, |valid|), st.released);
      assert (st.images + drafts)[..|st.images|] == st.images;
      Upload(st', |valid|, Rejections(batch))
  }

  /** `prev.find(img => img.id === id)`: the first draft with that id. */
  function FindId(images: seq<ImageDraft>, id: ImageId): (r: Option<nat>)
    ensures r.None? <==> forall i :: 0 <= i < |images| ==> images[i].id != id
    ensures r.Some? ==> r.value < |images| && images[r.value].id == id
    ensures r.Some? ==> forall i :: 0 <= i < r.value ==> images[i].id != id
  {
    if images == [] then None
    else if images[0].id == id then Some(0)
    else
      match FindId(images[1..], id)
      case None => None
      case Some(k) => Some(k + 1)
  }

  /** `prev.filter(img => img.id !== id)`. */
  function DropId(images: seq<ImageDraft>, id: ImageId): (r: seq<ImageDraft>)
    ensures forall d :: d in r <==> d in images && d.id != id
    ensures |r| <= |images|
    ensures (forall i :: 0 <= i < |images| ==> images[i].id != id) ==> r == images
  {
    if images == [] then []
    else
      assert images == [images[0]] + images[1..];
      (if images[0].id == id then [] else [images[0]]) + DropId(images[1..], id)
  }

  /** What removing a draft releases: its preview handle when it is a new
      image with one, nothing for an existing image. */
  function ReleaseOf(d: ImageDraft): (r: seq<Url>)
    ensures |r| <= 1
    ensures r != [] <==> !d.isExisting && d.preview.Some?
    ensures r != [] ==> r == [d.preview.value]
  {
    if d.preview.Some? && !d.isExisting then [d.preview.value] else []
  }

  /** `removeImage(id)`: every draft with that id leaves the list and the
      others keep their order; the handle of the FIRST such draft is released
      if it is a new image. An absent id changes nothing and releases nothing. */
  function RemoveImage(st: Staging, id: ImageId): (r: Staging)
    ensures forall d :: d in r.images <==> d in st.images && d.id != id
    ensures r.nextBlob == st.nextBlob && r.acquired == st.acquired
    ensures FindId(st.images, id).None? ==> r == st
    ensures FindId(st.images, id).Some? ==>
              && r.images == DropId(st.images, id)
              && r.released == st.released + ReleaseOf(st.images[FindId(st.images, id).value])
  {
    match FindId(st.images, id)
    case None => st
    case Some(k) =>
      st.(images := DropId(st.images, id), released := st.released + ReleaseOf(st.images[k]))
  }

  // ----- handle accounting -----

  /** The handles the drafts of new images hold, in list order. */
  function LiveHandles(images: seq<ImageDraft>): seq<Url>
  {
    if images == [] then []
    else (if images[0].isExisting then [] else [images[0].url]) + LiveHandles(images[1..])
  }

  /** A draft's shape: an existing image wraps a remote URL, which is also its
      preview; a new image owns a file and a handle that serves as both. */
  predicate DraftShape(d: ImageDraft) {
    if d.isExisting then d.file.None? && d.url.Remote? && d.preview == Some(d.url)
    else d.file.Some? && d.url.Blob? && d.preview == Some(d.url)
  }

  /** `prev.filter(img => img.id === id)`: the drafts `removeImage` drops. */
  function KeepId(images: seq<ImageDraft>, id: ImageId): seq<ImageDraft>
  {
    if images == [] then []
    else (if images[0].id == id then [images[0]] else []) + KeepId(images[1..], id)
  }

  /** The live handles split into those of the drafts that stay and those of
      the drafts that are dropped. */
  ghost predicate SplitsLive(images: seq<ImageDraft>, id: ImageId) {
    multiset(LiveHandles(images))
    == multiset(LiveHandles(DropId(images, id))) + multiset(LiveHandles(KeepId(images, id)))
  }

  lemma {:induction false} LiveHandlesSplit(images: seq<ImageDraft>, id: ImageId)
    ensures SplitsLive(images, id)
  {
    if images != [] {
      LiveHandlesSplit(images[1..], id);
      assert [images[0]] + images[1..] == images;
      SplitStep(images[0], images[1..], id);
    }
  }

  lemma SplitStep(d: ImageDraft, rest: seq<ImageDraft>, id: ImageId)
    requires SplitsLive(rest, id)
    ensures SplitsLive([d] + rest, id)
  {
    var h := if d.isExisting then [] else [d.url];
    var x := [d] + rest;
    assert x[0] == d && x[1..] == rest;
    assert LiveHandles(x) == h + LiveHandles(rest);
    assert multiset(h + LiveHandles(rest)) == multiset(h) + multiset(LiveHandles(rest));
    if d.id == id {
      assert DropId(x, id) == DropId(rest, id);
      var k := KeepId(rest, id);
      assert KeepId(x, id) == [d] + k;
      assert ([d] + k)[0] == d && ([d] + k)[1..] == k;
      assert LiveHandles([d] + k) == h + LiveHandles(k);
      assert multiset(h + LiveHandles(k)) == multiset(h) + multiset(LiveHandles(k));
    } else {
      assert KeepId(x, id) == KeepId(rest, id);
      var k := DropId(rest, id);
      assert DropId(x, id) == [d] + k;
      assert ([d] + k)[0] == d && ([d] + k)[1..] == k;
      assert LiveHandles([d] + k) == h + LiveHandles(k);
      assert multiset(h + LiveHandles(k)) == multiset(h) + multiset(LiveHandles(k));
    }
  }

  lemma {:induction false} LiveHandlesConcat(a: seq<ImageDraft>, b: seq<ImageDraft>)
    ensures LiveHandles(a + b) == LiveHandles(a) + LiveHandles(b)
  {
    if a != [] {
      assert (a + b)[0] == a[0];
      assert (a + b)[1..] == a[1..] + b;
      LiveHandlesConcat(a[1..], b);
      var h := if a[0].isExisting then [] else [a[0].url];
      assert LiveHandles(a + b) == h + LiveHandles(a[1..] + b);
      assert LiveHandles(a) == h + LiveHandles(a[1..]);
    } else {
      assert a + b == b;
    }
  }

  /** The first dropped draft is the one `find` returns. */
  lemma {:induction false} KeepIdStartsWithFound(images: seq<ImageDraft>, id: ImageId)
    requires FindId(images, id).Some?
    ensures KeepId(images, id) != []
    ensures KeepId(images, id)[0] == images[FindId(images, id).value]
  {
    if images[0].id != id {
      KeepIdStartsWithFound(images[1..], id);
    }
  }

  /** With at most one draft per id, only the found draft is dropped. */
  lemma {:induction false} KeepIdUnique(images: seq<ImageDraft>, id: ImageId)
    requires UniqueIds(images)
    ensures |KeepId(images, id)| <= 1
  {
    if images != [] {
      assert UniqueIds(images[1..]) by {
        forall i, j | 0 <= i < j < |images[1..]|
          ensures images[1..][i].id != images[1..][j].id
        {
          assert images[1..][i] == images[i + 1] && images[1..][j] == images[j + 1];
        }
      }
      KeepIdUnique(images[1..], id);
      if images[0].id == id {
        KeepIdNone(images[1..], id);
      }
    }
  }

  lemma {:induction false} KeepIdNone(images: seq<ImageDraft>, id: ImageId)
    requires forall i :: 0 <= i < |images| ==> images[i].id != id
    ensures KeepId(images, id) == []
  {
    if images != [] {
      KeepIdNone(images[1..], id);
    }
  }

  /** Drafts of new images holding consecutive handles from `base` hold
      exactly the handles `Blobs(base, n)`. */
  lemma {:induction false} LiveHandlesOfFresh(images: seq<ImageDraft>, base: nat)
    requires forall i :: 0 <= i < |images| ==> !images[i].isExisting && images[i].url == Blob(base + i)
    ensures LiveHandles(images) == Blobs(base, |images|)
  {
    if images != [] {
      var rest := images[1..];
      assert forall i :: 0 <= i < |rest| ==> rest[i] == images[i + 1];
      LiveHandlesOfFresh(rest, base + 1);
      assert LiveHandles(images) == [Blob(base)] + LiveHandles(rest);
      assert Blobs(base, |images|) == [Blob(base)] + Blobs(base + 1, |rest|);
    }
  }

  lemma {:induction false} LiveHandlesOfExisting(images: seq<ImageDraft>)
    requires forall i :: 0 <= i < |images| ==> images[i].isExisting
    ensures LiveHandles(images) == []
  {
    if images != [] {
      LiveHandlesOfExisting(images[1..]);
    }
  }

  /** No two drafts share an id. */
  predicate UniqueIds(images: seq<ImageDraft>) {
    forall i, j :: 0 <= i < j < |images| ==> images[i].id != images[j].id
  }

  /** The handle bookkeeping holds together: every draft has its shape, the
      handles acquired are distinct and came from the counter, and the
      handles released plus those still held are, counted with multiplicity,
      among those acquired, so none is released twice or released while
      still held. */
  predicate Wf(st: Staging) {
    && (forall i :: 0 <= i < |st.images| ==> DraftShape(st.images[i]))
    && NoDup(st.acquired)
    && (forall i :: 0 <= i < |st.acquired| ==> st.acquired[i].Blob? && st.acquired[i].serial < st.nextBlob)
    && multiset(st.released) + multiset(LiveHandles(st.images)) <= multiset(st.acquired)
  }

  /** Every handle acquired is either released or still held by a draft. */
  predicate NoLeak(st: Staging) {
    multiset(st.released) + multiset(LiveHandles(st.images)) == multiset(st.acquired)
  }

  /** The form starts well formed, holding no handle. */
  lemma InitialStagingWf(urls: seq<string>)
    ensures Wf(InitialStaging(urls)) && NoLeak(InitialStaging(urls))
    ensures UniqueIds(InitialStaging(urls).images)
  {
    LiveHandlesOfExisting(InitialImages(urls));
  }

  /** An upload keeps the bookkeeping well formed and leak-free: the handles
      it acquires are exactly the ones its new drafts hold. */
  lemma UploadPreservesWf(st: Staging, batch: seq<File>, clock: nat -> int)
    requires Wf(st)
    ensures Wf(UploadImages(st, batch, clock).staging)
    ensures NoLeak(st) ==> NoLeak(UploadImages(st, batch, clock).staging)
  {
    if |st.images| + |batch| <= MaxImages {
      var valid := AcceptedFiles(batch);
      var drafts := NewDrafts(valid, clock, st.nextBlob);
      var handles := Blobs(st.nextBlob, |valid|);
      var st' := UploadImages(st, batch, clock).staging;
      assert st' == Staging(st.images + drafts, st.nextBlob + |valid|, st.acquired + handles, st.released);
      AppendShapes(st.images, drafts);
      FreshHandles(st, |valid|);
      LiveHandlesConcat(st.images, drafts);
      AccountAppend(st.released, LiveHandles(st.images), st.acquired, handles);
    }
  }

  lemma AppendShapes(images: seq<ImageDraft>, drafts: seq<ImageDraft>)
    requires forall i :: 0 <= i < |images| ==> DraftShape(images[i])
    requires forall i :: 0 <= i < |drafts| ==> DraftShape(drafts[i])
    ensures forall i :: 0 <= i < |images + drafts| ==> DraftShape((images + drafts)[i])
  {
    forall i | 0 <= i < |images + drafts|
      ensures DraftShape((images + drafts)[i])
    {
      if i >= |images| {
        assert (images + drafts)[i] == drafts[i - |images|];
      }
    }
  }

  lemma FreshHandles(st: Staging, n: nat)
    requires NoDup(st.acquired)
    requires forall i :: 0 <= i < |st.acquired| ==> st.acquired[i].Blob? && st.acquired[i].serial < st.nextBlob
    ensures var a := st.acquired + Blobs(st.nextBlob, n);
      && NoDup(a)
      && forall i :: 0 <= i < |a| ==> a[i].Blob? && a[i].serial < st.nextBlob + n
  {
    var b := Blobs(st.nextBlob, n);
    var a := st.acquired + b;
    forall i, j | 0 <= i < j < |a|
      ensures a[i] != a[j]
    {
      if i >= |st.acquired| {
        assert a[i] == b[i - |st.acquired|] && a[j] == b[j - |st.acquired|];
      } else if j >= |st.acquired| {
        assert a[i] == st.acquired[i] && a[j] == b[j - |st.acquired|];
      } else {
        assert a[i] == st.acquired[i] && a[j] == st.acquired[j];
      }
    }
    forall i | 0 <= i < |a|
      ensures a[i].Blob? && a[i].serial < st.nextBlob + n
    {
      if i >= |st.acquired| {
        assert a[i] == b[i - |st.acquired|];
      } else {
        assert a[i] == st.acquired[i];
      }
    }
  }

  lemma AccountAppend(released: seq<Url>, live: seq<Url>, acquired: seq<Url>, handles: seq<Url>)
    ensures multiset(released) + multiset(live) <= multiset(acquired) ==>
              multiset(released) + multiset(live + handles) <= multiset(acquired + handles)
    ensures multiset(released) + multiset(live) == multiset(acquired) ==>
              multiset(released) + multiset(live + handles) == multiset(acquired + handles)
  {
    assert multiset(live + handles) == multiset(live) + multiset(handles);
    assert multiset(acquired + handles) == multiset(acquired) + multiset(handles);
  }

  /** A removal keeps the bookkeeping well formed; when ids are unique it
      also keeps it leak-free. */
  lemma RemovePreservesWf(st: Staging, id: ImageId)
    requires Wf(st)
    ensures Wf(RemoveImage(st, id))
    ensures NoLeak(st) && UniqueIds(st.images) ==> NoLeak(RemoveImage(st, id))
  {
    match FindId(st.images, id)
    case None =>
    case Some(k) =>
      RemoveFoundAccounts(st, id, k);
      DropShapes(st.images, id);
  }

  /** The bookkeeping of a removal that finds its id at position `k`. */
  lemma RemoveFoundAccounts(st: Staging, id: ImageId, k: nat)
    requires Wf(st)
    requires FindId(st.images, id) == Some(k)
    ensures var r := RemoveImage(st, id);
            multiset(r.released) + multiset(LiveHandles(r.images)) <= multiset(r.acquired)
    ensures var r := RemoveImage(st, id);
            NoLeak(st) && UniqueIds(st.images) ==>
              multiset(r.released) + multiset(LiveHandles(r.images)) == multiset(r.acquired)
  {
    var found := st.images[k];
    var dropped := DropId(st.images, id);
    var kept := KeepId(st.images, id);
    assert RemoveImage(st, id) == st.(images := dropped, released := st.released + ReleaseOf(found));
    LiveHandlesSplit(st.images, id);
    KeepIdStartsWithFound(st.images, id);
    FoundHoldsItsRelease(found, kept);
    AccountRemove(st.released, ReleaseOf(found), LiveHandles(dropped), LiveHandles(kept[1..]),
                  LiveHandles(st.images), st.acquired);
    if UniqueIds(st.images) {
      KeepIdUnique(st.images, id);
      assert kept[1..] == [];
    }
  }

  /** The drafts a removal drops, headed by the one it found, hold that
      draft's released handle followed by the others'. */
  lemma FoundHoldsItsRelease(found: ImageDraft, kept: seq<ImageDraft>)
    requires kept != [] && kept[0] == found && DraftShape(found)
    ensures LiveHandles(kept) == ReleaseOf(found) + LiveHandles(kept[1..])
  {
    assert kept == [found] + kept[1..];
    LiveHandlesConcat([found], kept[1..]);
    assert [found][1..] == [];
  }

  lemma DropShapes(images: seq<ImageDraft>, id: ImageId)
    requires forall i :: 0 <= i < |images| ==> DraftShape(images[i])
    ensures forall i :: 0 <= i < |DropId(images, id)| ==> DraftShape(DropId(images, id)[i])
  {
    var r := DropId(images, id);
    forall i | 0 <= i < |r|
      ensures DraftShape(r[i])
    {
      assert r[i] in images;
    }
  }

  lemma AccountRemove(released: seq<Url>, rel: seq<Url>, liveStay: seq<Url>, liveRest: seq<Url>,
                      live: seq<Url>, acquired: seq<Url>)
    requires multiset(live) == multiset(liveStay) + multiset(rel + liveRest)
    ensures multiset(released) + multiset(live) <= multiset(acquired) ==>
              multiset(released + rel) + multiset(liveStay) <= multiset(acquired)
    ensures liveRest == [] && multiset(released) + multiset(live) == multiset(acquired) ==>
              multiset(released + rel) + multiset(liveStay) == multiset(acquired)
  {
    assert multiset(rel + liveRest) == multiset(rel) + multiset(liveRest);
    assert multiset(released + rel) == multiset(released) + multiset(rel);
    if liveRest == [] {
      assert rel + liveRest == rel;
    }
  }

  /** Removing the same id a second time is a no-op: a handle is released
      at most once. */
  lemma RemoveTwice(st: Staging, id: ImageId)
    ensures RemoveImage(RemoveImage(st, id), id) == RemoveImage(st, id)
  {
  }

  /** Removal keeps ids unique: the drafts that stay are a subsequence. */
  lemma RemoveKeepsIdsUnique(st: Staging, id: ImageId)
    requires UniqueIds(st.images)
    ensures UniqueIds(RemoveImage(st, id).images)
  {
    DropIdKeepsUnique(st.images, id);
  }

  lemma {:induction false} DropIdKeepsUnique(images: seq<ImageDraft>, id: ImageId)
    requires UniqueIds(images)
    ensures UniqueIds(DropId(images, id))
  {
    if images != [] {
      var x := images[0];
      var rest := images[1..];
      assert UniqueIds(rest) by {
        forall i, j | 0 <= i < j < |rest|
          ensures rest[i].id != rest[j].id
        {
          assert rest[i] == images[i + 1] && rest[j] == images[j + 1];
        }
      }
      DropIdKeepsUnique(rest, id);
      var r := DropId(rest, id);
      if x.id != id {
        assert DropId(images, id) == [x] + r;
        forall j | 0 <= j < |r|
          ensures r[j].id != x.id
        {
          assert r[j] in rest;
          var k :| 0 <= k < |rest| && rest[k] == r[j];
          assert rest[k] == images[k + 1];
        }
        forall i, j | 0 <= i < j < |[x] + r|
          ensures ([x] + r)[i].id != ([x] + r)[j].id
        {
          assert ([x] + r)[j] == r[j - 1];
          if i > 0 {
            assert ([x] + r)[i] == r[i - 1];
          }
        }
      } else {
        assert DropId(images, id) == r;
      }
    }
  }

  /** Removing the ids one after another, as successive clicks do. */
  function RemoveEach(st: Staging, ids: seq<ImageId>): (r: Staging)
    ensures r.nextBlob == st.nextBlob && r.acquired == st.acquired
    ensures forall d :: d in r.images <==> d in st.images && forall k :: 0 <= k < |ids| ==> d.id != ids[k]
    decreases |ids|
  {
    if ids == [] then st else RemoveEach(RemoveImage(st, ids[0]), ids[1..])
  }

  /** Any run of removals from a well-formed, leak-free list with unique ids
      leaves it so: every handle stays either held or released once. */
  lemma {:induction false} RemovalsPreserveNoLeak(st: Staging, ids: seq<ImageId>)
    requires Wf(st) && NoLeak(st) && UniqueIds(st.images)
    ensures var r := RemoveEach(st, ids);
            Wf(r) && NoLeak(r) && UniqueIds(r.images)
    decreases |ids|
  {
    if ids != [] {
      var next := RemoveImage(st, ids[0]);
      RemovePreservesWf(st, ids[0]);
      RemoveKeepsIdsUnique(st, ids[0]);
      RemovalsPreserveNoLeak(next, ids[1..]);
    }
  }

  /** The accepted files of a batch are those of its parts, in order, and a
      single file is kept exactly when it passes. */
  lemma {:induction false} AcceptedFilesConcat(a: seq<File>, b: seq<File>)
    ensures AcceptedFiles(a + b) == AcceptedFiles(a) + AcceptedFiles(b)
  {
    if a == [] {
      assert a + b == b;
    } else {
      assert (a + b)[0] == a[0] && (a + b)[1..] == a[1..] + b;
      AcceptedFilesConcat(a[1..], b);
    }
  }

  /** `DropId` keeps the drafts of each part in order, and a single draft
      stays exactly when its id differs. */
  lemma {:induction false} DropIdConcat(a: seq<ImageDraft>, b: seq<ImageDraft>, id: ImageId)
    ensures DropId(a + b, id) == DropId(a, id) + DropId(b, id)
  {
    if a == [] {
      assert a + b == b;
    } else {
      assert (a + b)[0] == a[0] && (a + b)[1..] == a[1..] + b;
      DropIdConcat(a[1..], b, id);
    }
  }

  /** Counted with multiplicity, `DropId` keeps every draft of another id
      as often as it occurs and no draft of the removed id. */
  lemma {:induction false} DropIdCounts(images: seq<ImageDraft>, id: ImageId)
    ensures forall d :: multiset(DropId(images, id))[d] == if d.id != id then multiset(images)[d] else 0
  {
    if images != [] {
      var x := images[0];
      var rest := images[1..];
      DropIdCounts(rest, id);
      assert images == [x] + rest;
      var h := if x.id == id then [] else [x];
      assert DropId(images, id) == h + DropId(rest, id);
      assert multiset(DropId(images, id)) == multiset(h) + multiset(DropId(rest, id));
      assert multiset(images) == multiset([x]) + multiset(rest);
    }
  }

  /** Counted with multiplicity, the accepted files are the files of the
      batch that pass, each as often as it was selected. */
  lemma {:induction false} AcceptedFilesCounts(batch: seq<File>)
    ensures forall f :: multiset(AcceptedFiles(batch))[f] == if Accepted(f) then multiset(batch)[f] else 0
  {
    if batch != [] {
      var x := batch[0];
      var rest := batch[1..];
      AcceptedFilesCounts(rest);
      assert batch == [x] + rest;
      var h := if Accepted(x) then [x] else [];
      assert AcceptedFiles(batch) == h + AcceptedFiles(rest);
      assert multiset(AcceptedFiles(batch)) == multiset(h) + multiset(AcceptedFiles(rest));
      assert multiset(batch) == multiset([x]) + multiset(rest);
    }
  }

  /** A single draft stays exactly when its id differs; a single file is
      accepted exactly when it passes. */
  lemma DropIdOne(d: ImageDraft, id: ImageId)
    ensures DropId([d], id) == if d.id == id then [] else [d]
  {
  }

  lemma AcceptedFilesOne(f: File)
    ensures AcceptedFiles([f]) == if Accepted(f) then [f] else []
  {
  }

  /** An upload whose clock readings no earlier new draft carries keeps ids
      unique: within a batch the positions already differ. */
  lemma UploadKeepsIdsUnique(st: Staging, batch: seq<File>, clock: nat -> int)
    requires UniqueIds(st.images)
    requires forall i, k :: 0 <= i < |st.images| && 0 <= k < |batch| && st.images[i].id.NewId? ==>
               st.images[i].id.stamp != clock(k)
    ensures UniqueIds(UploadImages(st, batch, clock).staging.images)
  {
    if |st.images| + |batch| <= MaxImages {
      var drafts := NewDrafts(AcceptedFiles(batch), clock, st.nextBlob);
      var images := UploadImages(st, batch, clock).staging.images;
      assert images == st.images + drafts;
    }
  }

  /** Two uploads within the same millisecond give their first files the same
      id `new-<stamp>-0`; removing that id drops both drafts but releases only
      the first one's handle, so the second handle leaks. */
  /** A clock that reads 7 every time it is asked. */
  const Frozen: nat -> int := k => 7

  lemma SameStampLeaksHandle()
    ensures
      var f := File("a.png", "image/png", 1);
      var once := UploadImages(InitialStaging([]), [f], Frozen).staging;
      var twice := UploadImages(once, [f], Frozen).staging;
      var removed := RemoveImage(twice, NewId(7, 0));
      && removed.images == []
      && removed.acquired == [Blob(0), Blob(1)]
      && removed.released == [Blob(0)]
      && !NoLeak(removed)
  {
    var f := File("a.png", "image/png", 1);
    var d0 := ImageDraft(NewId(7, 0), Some(f), Blob(0), false, Some(Blob(0)));
    var d1 := ImageDraft(NewId(7, 0), Some(f), Blob(1), false, Some(Blob(1)));
    TwoUploadsSameStamp(f, d0, d1);
    RemoveCollidingId(d0, d1);
    var removed := Staging([], 2, [Blob(0), Blob(1)], [Blob(0)]);
    assert multiset(removed.acquired)[Blob(1)] == 1;
    assert multiset(removed.released)[Blob(1)] == 0;
  }

  lemma TwoUploadsSameStamp(f: File, d0: ImageDraft, d1: ImageDraft)
    requires f == File("a.png", "image/png", 1)
    requires d0 == ImageDraft(NewId(7, 0), Some(f), Blob(0), false, Some(Blob(0)))
    requires d1 == ImageDraft(NewId(7, 0), Some(f), Blob(1), false, Some(Blob(1)))
    ensures UploadImages(UploadImages(InitialStaging([]), [f], Frozen).staging, [f], Frozen).staging
         == Staging([d0, d1], 2, [Blob(0), Blob(1)], [])
  {
    FirstUpload(f, d0);
    SecondUpload(f, d0, d1);
  }

  lemma SecondUpload(f: File, d0: ImageDraft, d1: ImageDraft)
    requires f == File("a.png", "image/png", 1)
    requires d1 == ImageDraft(NewId(7, 0), Some(f), Blob(1), false, Some(Blob(1)))
    ensures UploadImages(Staging([d0], 1, [Blob(0)], []), [f], Frozen).staging
         == Staging([d0, d1], 2, [Blob(0), Blob(1)], [])
  {
    assert Frozen(0) == 7;
    UploadOne(Staging([d0], 1, [Blob(0)], []), f, Frozen);
    assert [d0] + [d1] == [d0, d1];
    assert [Blob(0)] + [Blob(1)] == [Blob(0), Blob(1)];
  }

  lemma FirstUpload(f: File, d0: ImageDraft)
    requires f == File("a.png", "image/png", 1)
    requires d0 == ImageDraft(NewId(7, 0), Some(f), Blob(0), false, Some(Blob(0)))
    ensures UploadImages(InitialStaging([]), [f], Frozen).staging == Staging([d0], 1, [Blob(0)], [])
  {
    assert InitialStaging([]) == Staging([], 0, [], []);
    assert Frozen(0) == 7;
    UploadOne(Staging([], 0, [], []), f, Frozen);
  }

  lemma RemoveCollidingId(d0: ImageDraft, d1: ImageDraft)
    requires d0.id == d1.id && !d0.isExisting && d0.preview == Some(Blob(0))
    ensures RemoveImage(Staging([d0, d1], 2, [Blob(0), Blob(1)], []), d0.id)
         == Staging([], 2, [Blob(0), Blob(1)], [Blob(0)])
  {
    assert FindId([d0, d1], d0.id) == Some(0);
    assert [d0, d1][1..] == [d1];
    assert DropId([d1], d0.id) == [];
    assert DropId([d0, d1], d0.id) == [];
  }

  /** Uploading one acceptable file below the cap appends one draft. */
  lemma UploadOne(st: Staging, f: File, clock: nat -> int)
    requires Accepted(f) && |st.images| + 1 <= MaxImages
    ensures UploadImages(st, [f], clock).staging
         == Staging(st.images + [ImageDraft(NewId(clock(0), 0), Some(f), Blob(st.nextBlob), false, Some(Blob(st.nextBlob)))],
                    st.nextBlob + 1, st.acquired + [Blob(st.nextBlob)], st.released)
  {
    assert [f][1..] == [];
    assert AcceptedFiles([f]) == [f];
  }
}
