/** lib/image-storage.ts: the uploaded-image list kept under
    "lelo_uploaded_images". An absent key reads as the empty list, so the
    store is a plain sequence. The file itself is a `FileInfo`; what
    `FileReader` produces is the parameter `read` (`None` when the reader
    fails), and the id and timestamp are the parameters `stamp` and `nowIso`. */
module ImageStorage {
  import opened Wrappers
  import opened Js
  import Collection

  /** The parts of a browser `File` the upload reads. */
  datatype FileInfo = FileInfo(name: string, size: nat, kind: string)

  /** `UploadedImage`, without the `File` object itself (`kind` is `type`). */
  datatype UploadedImage = UploadedImage(
    id: string,
    name: string,
    url: string,
    uploadedAt: string,
    category: string,
    size: nat,
    kind: string)

  /** How the upload promise settles. */
  datatype Upload = Rejected(message: string) | Resolved(image: UploadedImage)

  datatype Uploaded = Uploaded(result: Upload, store: seq<UploadedImage>)

  const DefaultCategory := "general"

  function UploadId(i: UploadedImage): string { i.id }

  /** `uploadImage(file, category)`: a file whose type does not start with
      "image/" is refused before anything is read; a failed read is refused
      too; otherwise an image carrying the file's name, size and type, the
      read data URL and the category ("general" when the caller gives
      none) is appended and returned. A refusal
      leaves the list alone. */
  function UploadImage(store: seq<UploadedImage>, file: FileInfo, category: Option<string>,
                       read: Option<string>, stamp: string, nowIso: string): (r: Uploaded)
    ensures !StartsWith(file.kind, "image/") ==> r == Uploaded(Rejected("File must be an image"), store)
    ensures StartsWith(file.kind, "image/") && read.None? ==>
              r == Uploaded(Rejected("Failed to read file"), store)
    ensures r.result.Resolved? <==> StartsWith(file.kind, "image/") && read.Some?
    ensures r.result.Resolved? ==>
              var img := r.result.image;
              && r.store == store + [img]
              && img.url == read.value && img.category == category.GetOr(DefaultCategory) && img.id == stamp
              && img.name == file.name && img.size == file.size && img.kind == file.kind
  {
    if !StartsWith(file.kind, "image/") then Uploaded(Rejected("File must be an image"), store)
    else if read.None? then Uploaded(Rejected("Failed to read file"), store)
    else
      var img := UploadedImage(stamp, file.name, read.value, nowIso, category.GetOr(DefaultCategory),
                               file.size, file.kind);
      Uploaded(Resolved(img), store + [img])
  }

  /** `deleteUploadedImage(id)`: every image with that id goes; true exactly
      when one existed, and nothing changes otherwise. */
  function DeleteUploadedImage(store: seq<UploadedImage>, id: string): (r: (seq<UploadedImage>, bool))
    ensures r.1 <==> Collection.HasKey(store, UploadId, id)
    ensures !r.1 ==> r.0 == store
    ensures Collection.RemovedAll(store, r.0, UploadId, id)
  {
    Collection.DeleteAll(store, UploadId, id)
  }

  /** `getImagesByCategory(category)`: exactly the images of that category,
      in upload order. */
  function GetImagesByCategory(store: seq<UploadedImage>, category: string): (r: seq<UploadedImage>)
    ensures forall j :: 0 <= j < |r| ==> r[j].category == category
    ensures forall x :: x in r <==> x in store && x.category == category
    ensures forall x :: multiset(r)[x] == if x.category == category then multiset(store)[x] else 0
    ensures Collection.IsSubsequence(r, store)
  {
    Collection.FilterIsSubsequence(store, (i: UploadedImage) => i.category == category);
    Collection.Filter(store, (i: UploadedImage) => i.category == category)
  }

  /** A successful upload adds the image to its own category's listing (the
      default category when none is given), at the end, and to no other
      listing. */
  lemma {:induction false} UploadShowsInCategory(store: seq<UploadedImage>, file: FileInfo, category: Option<string>,
                               read: Option<string>, stamp: string, nowIso: string, other: string)
    requires UploadImage(store, file, category, read, stamp, nowIso).result.Resolved?
    ensures var u := UploadImage(store, file, category, read, stamp, nowIso);
            var c := category.GetOr(DefaultCategory);
            && GetImagesByCategory(u.store, c) == GetImagesByCategory(store, c) + [u.result.image]
            && (other != c ==> GetImagesByCategory(u.store, other) == GetImagesByCategory(store, other))
  {
    var u := UploadImage(store, file, category, read, stamp, nowIso);
    var c := category.GetOr(DefaultCategory);
    Collection.FilterSnoc(store, u.result.image, (i: UploadedImage) => i.category == c);
    Collection.FilterSnoc(store, u.result.image, (i: UploadedImage) => i.category == other);
  }

  /** Deleting a freshly uploaded image by its id, when no earlier image
      shared that id, restores the list. */
  lemma {:induction false} UploadThenDelete(store: seq<UploadedImage>, file: FileInfo, category: Option<string>,
                          read: Option<string>, stamp: string, nowIso: string)
    requires UploadImage(store, file, category, read, stamp, nowIso).result.Resolved?
    requires !Collection.HasKey(store, UploadId, stamp)
    ensures var u := UploadImage(store, file, category, read, stamp, nowIso);
            DeleteUploadedImage(u.store, stamp) == (store, true)
  {
    var u := UploadImage(store, file, category, read, stamp, nowIso);
    Collection.DeleteAllAfterAppend(store, u.result.image, UploadId, stamp);
  }

  const Units := ["Bytes", "KB", "MB", "GB"]

  function Pow1024(i: nat): (r: nat)
    ensures r >= 1
  {
    if i == 0 then 1 else 1024 * Pow1024(i - 1)
  }

  /** The unit index `Math.floor(Math.log(bytes) / Math.log(1024))` picks:
      the exponent of the largest power of 1024 not above `bytes`. */
  method SizeExponent(bytes: nat) returns (i: nat)
    requires bytes > 0
    ensures Pow1024(i) <= bytes < Pow1024(i + 1)
  {
    i := 0;
    var p := 1;
    while p * 1024 <= bytes
      invariant p == Pow1024(i) && p <= bytes
    {
      p := p * 1024;
      i := i + 1;
    }
  }

  /** `formatFileSize(bytes)`: "0 Bytes" for zero; otherwise the number
      `showScaled(bytes, divisor)` (the source's `parseFloat(toFixed(2))` of
      the quotient) followed by the unit named by the exponent, or by
      "undefined" from a terabyte on, where the unit list ends. */
  method FormatFileSize(bytes: nat, showScaled: (nat, nat) -> string) returns (r: string)
    ensures bytes == 0 ==> r == "0 Bytes"
    ensures bytes > 0 ==> exists i: nat ::
              && Pow1024(i) <= bytes < Pow1024(i + 1)
              && r == showScaled(bytes, Pow1024(i)) + " " + (if i < |Units| then Units[i] else "undefined")
  {
    if bytes == 0 {
      return "0 Bytes";
    }
    var i := SizeExponent(bytes);
    r := showScaled(bytes, Pow1024(i)) + " " + (if i < |Units| then Units[i] else "undefined");
  }

  /** The exponent is unique, so the unit a size is shown in is determined. */
  lemma {:induction false} SizeExponentUnique(bytes: nat, i: nat, j: nat)
    requires Pow1024(i) <= bytes < Pow1024(i + 1)
    requires Pow1024(j) <= bytes < Pow1024(j + 1)
    ensures i == j
  {
    if i < j { Pow1024Monotone(i + 1, j); }
    if j < i { Pow1024Monotone(j + 1, i); }
  }

  lemma {:induction false} Pow1024Monotone(a: nat, b: nat)
    requires a <= b
    ensures Pow1024(a) <= Pow1024(b)
    decreases b - a
  {
    if a < b { Pow1024Monotone(a, b - 1); }
  }
}
