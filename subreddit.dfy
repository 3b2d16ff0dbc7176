/** One board's harvest: the listing URL, the extraction of candidate image
    URLs from a listing document, the per-image resolution gate and
    destination naming, the existence-checked write into the working
    directory, and the folding of task joins into the pass's result. */
module Subreddit {
  import opened Wrappers
  import opened Json
  import opened Error

  const ListingBase := "https://www.reddit.com/r/"
  const GalleryHost := "https://i.redd.it/"
  const JpgSuffix := ".jpg"
  /** The smallest larger side an image must have to be kept. */
  const MinDimension: nat := 1600
  const JoinFailedMessage := "Thread joining failed"

  /** `str::ends_with`: `s` ends in `suffix`. */
  predicate EndsWith(s: string, suffix: string)
  {
    |suffix| <= |s| && s[|s| - |suffix|..] == suffix
  }

  // ---------------------------------------------------------------------
  // Listing URL

  /** `Subreddit::url`: the board's listing address for one sort endpoint. */
  function Url(name: string, secondary: string): (r: string)
    ensures |r| == |ListingBase| + |name| + 1 + |secondary|
    ensures r[..|ListingBase|] == ListingBase
    ensures r[|ListingBase|..|ListingBase| + |name|] == name
    ensures r[|ListingBase| + |name|] == '/'
    ensures r[|ListingBase| + |name| + 1..] == secondary
  {
    ListingBase + name + "/" + secondary
  }

  /** A sort endpoint without '/' is the listing URL's last path segment, so
      distinct boards or endpoints never share a listing URL. */
  lemma UrlInjective(name1: string, sort1: string, name2: string, sort2: string)
    requires '/' !in sort1 && '/' !in sort2
    ensures Url(name1, sort1) == Url(name2, sort2) <==> name1 == name2 && sort1 == sort2
  {
    if Url(name1, sort1) == Url(name2, sort2) {
      assert Url(name1, sort1) == (ListingBase + name1) + "/" + sort1;
      assert Url(name2, sort2) == (ListingBase + name2) + "/" + sort2;
      LastSegmentAfterSlash(ListingBase + name1, sort1);
      LastSegmentAfterSlash(ListingBase + name2, sort2);
      assert sort1 == sort2;
      assert |name1| == |name2|;
    }
  }

  // ---------------------------------------------------------------------
  // Candidate extraction

  /** `get_image_data`: the `data.children` array of a listing, or no
      entries at all when it is missing or not an array. */
  function GetImageData(entries: Value): (children: seq<Value>)
    ensures Index(Index(entries, "data"), "children").Array? ==>
              children == Index(Index(entries, "data"), "children").items
    ensures !Index(Index(entries, "data"), "children").Array? ==> children == []
  {
    match Index(Index(entries, "data"), "children")
    case Array(items) => items
    case _ => []
  }

  /** The image address of one gallery item. */
  function GalleryUrl(key: string): (url: string)
  {
    GalleryHost + key + JpgSuffix
  }

  /** One gallery address per member of `media_metadata`, in its order. */
  function GalleryUrls(members: seq<(string, Value)>): (urls: seq<string>)
    ensures |urls| == |members|
    ensures forall k :: 0 <= k < |urls| ==> urls[k] == GalleryHost + members[k].0 + JpgSuffix
    decreases |members|
  {
    if members == [] then []
    else GalleryUrls(members[..|members| - 1]) + [GalleryUrl(members[|members| - 1].0)]
  }

  /** Gallery addresses determine their keys. */
  lemma GalleryUrlInjective(key1: string, key2: string)
    ensures GalleryUrl(key1) == GalleryUrl(key2) <==> key1 == key2
  {
    if GalleryUrl(key1) == GalleryUrl(key2) {
      var u := GalleryUrl(key1);
      assert |key1| == |key2|;
      assert key1 == u[|GalleryHost|..|GalleryHost| + |key1|];
      assert key2 == GalleryUrl(key2)[|GalleryHost|..|GalleryHost| + |key2|];
    }
  }

  /** A gallery whose keys are unique yields pairwise distinct addresses. */
  lemma GalleryUrlsDistinct(members: seq<(string, Value)>)
    requires UniqueKeys(members)
    ensures forall i, j :: 0 <= i < j < |members| ==> GalleryUrls(members)[i] != GalleryUrls(members)[j]
  {
    var urls := GalleryUrls(members);
    forall i, j | 0 <= i < j < |members|
      ensures urls[i] != urls[j]
    {
      GalleryUrlInjective(members[i].0, members[j].0);
    }
  }

  /** The candidates one listing entry contributes: every key of a
      `media_metadata` object; failing that, a `url` string ending in
      ".jpg"; failing that, nothing. */
  function EntryImages(entry: Value): (images: seq<string>)
  {
    var data := Index(entry, "data");
    match Index(data, "media_metadata")
    case Object(members) => GalleryUrls(members)
    case _ =>
      match Index(data, "url")
      case String(url) => if EndsWith(url, JpgSuffix) then [url] else []
      case _ => []
  }

  /** The extraction rules for one entry, in order of precedence. */
  lemma EntryImagesRules(entry: Value)
    ensures var meta := Index(Index(entry, "data"), "media_metadata");
            meta.Object? ==>
              |EntryImages(entry)| == |meta.members| &&
              forall k :: 0 <= k < |meta.members| ==>
                EntryImages(entry)[k] == GalleryHost + meta.members[k].0 + JpgSuffix
    ensures var data := Index(entry, "data");
            var url := Index(data, "url");
            !Index(data, "media_metadata").Object? ==>
              EntryImages(entry) == if url.String? && EndsWith(url.s, JpgSuffix) then [url.s] else []
  {
  }

  /** Every address an entry contributes ends in ".jpg". */
  lemma EntryImagesAreJpg(entry: Value)
    ensures forall u :: u in EntryImages(entry) ==> EndsWith(u, JpgSuffix)
  {
    var images := EntryImages(entry);
    var meta := Index(Index(entry, "data"), "media_metadata");
    if meta.Object? {
      forall u | u in images ensures EndsWith(u, JpgSuffix) {
        var k :| 0 <= k < |images| && images[k] == u;
        assert u == (GalleryHost + meta.members[k].0) + JpgSuffix;
      }
    }
  }

  /** Each element's contribution, concatenated in element order. */
  function FlatMap<T>(xs: seq<T>, f: T -> seq<string>): (flat: seq<string>)
    decreases |xs|
  {
    if xs == [] then []
    else FlatMap(xs[..|xs| - 1], f) + f(xs[|xs| - 1])
  }

  /** Flattening distributes over concatenation. */
  lemma {:induction false} FlatMapAppend<T>(a: seq<T>, b: seq<T>, f: T -> seq<string>)
    ensures FlatMap(a + b, f) == FlatMap(a, f) + FlatMap(b, f)
    decreases |b|
  {
    if b == [] {
      assert a + b == a;
    } else {
      var front := b[..|b| - 1];
      assert (a + b)[..|a + b| - 1] == a + front;
      assert (a + b)[|a + b| - 1] == b[|b| - 1];
      FlatMapAppend(a, front, f);
    }
  }

  /** Extending a prefix by one element appends that element's part. */
  lemma FlatMapPrefix<T>(xs: seq<T>, i: nat, f: T -> seq<string>)
    requires i < |xs|
    ensures FlatMap(xs[..i + 1], f) == FlatMap(xs[..i], f) + f(xs[i])
  {
    assert xs[..i + 1][..i] == xs[..i];
  }

  /** Read front to back: the first element's contribution comes first. */
  lemma FlatMapFirst<T>(xs: seq<T>, f: T -> seq<string>)
    requires xs != []
    ensures FlatMap(xs, f) == f(xs[0]) + FlatMap(xs[1..], f)
  {
    assert xs == [xs[0]] + xs[1..];
    FlatMapAppend([xs[0]], xs[1..], f);
    assert [xs[0]][..0] == [];
  }

  /** A string is in the result exactly when some element contributes it. */
  lemma {:induction false} FlatMapMembership<T>(xs: seq<T>, f: T -> seq<string>, u: string)
    ensures u in FlatMap(xs, f) <==> exists i :: 0 <= i < |xs| && u in f(xs[i])
    decreases |xs|
  {
    if xs != [] {
      var front := xs[..|xs| - 1];
      FlatMapMembership(front, f, u);
      if u in FlatMap(xs, f) && u !in f(xs[|xs| - 1]) {
        var i :| 0 <= i < |front| && u in f(front[i]);
        assert xs[i] == front[i];
      }
      if exists i :: 0 <= i < |xs| && u in f(xs[i]) {
        var i :| 0 <= i < |xs| && u in f(xs[i]);
        if i < |front| {
          assert front[i] == xs[i];
        }
      }
    }
  }

  /** Every candidate of a listing document, entry by entry in document
      order: none when `data.children` is missing or not an array; each one
      ends in ".jpg", so the file-name pattern always finds a match in it. */
  function Candidates(entries: Value): (images: seq<string>)
    ensures !Index(Index(entries, "data"), "children").Array? ==> images == []
    ensures forall u :: u in images ==> EndsWith(u, JpgSuffix) && FileNameMatch(u).Some?
  {
    var children := GetImageData(entries);
    var images := FlatMap(children, EntryImages);
    assert forall u :: u in images ==> EndsWith(u, JpgSuffix) && FileNameMatch(u).Some? by {
      forall u | u in images ensures EndsWith(u, JpgSuffix) && FileNameMatch(u).Some? {
        FlatMapMembership(children, EntryImages, u);
        var i :| 0 <= i < |children| && u in EntryImages(children[i]);
        EntryImagesAreJpg(children[i]);
        assert u[|u| - 1] == JpgSuffix[3];
      }
    }
    images
  }

  /** A URL is a candidate exactly when some entry of `data.children`
      contributes it. */
  lemma CandidateMembership(entries: Value, url: string)
    ensures var children := GetImageData(entries);
            url in Candidates(entries) <==>
            exists i :: 0 <= i < |children| && url in EntryImages(children[i])
  {
    FlatMapMembership(GetImageData(entries), EntryImages, url);
  }

  /** A gallery post with items "abc" and "def" yields their two image
      addresses, in that order. */
  lemma GalleryListingExample()
    ensures var post := Object([("data", Object([("media_metadata",
              Object([("abc", Object([])), ("def", Object([]))]))]))]);
            var listing := Object([("data", Object([("children", Array([post]))]))]);
            Candidates(listing) == ["https://i.redd.it/abc.jpg", "https://i.redd.it/def.jpg"]
  {
    var meta := Object([("abc", Object([])), ("def", Object([]))]);
    var post := Object([("data", Object([("media_metadata", meta)]))]);
    var listing := Object([("data", Object([("children", Array([post]))]))]);
    assert Index(listing, "data") == Object([("children", Array([post]))]);
    assert Index(Index(listing, "data"), "children") == Array([post]);
    assert GetImageData(listing) == [post];
    assert Index(post, "data") == Object([("media_metadata", meta)]);
    assert Index(Index(post, "data"), "media_metadata") == meta;
    assert EntryImages(post) == GalleryUrls(meta.members);
    var urls := GalleryUrls(meta.members);
    assert urls[0] == GalleryHost + "abc" + JpgSuffix == "https://i.redd.it/abc.jpg";
    assert urls[1] == GalleryHost + "def" + JpgSuffix == "https://i.redd.it/def.jpg";
    assert [post][1..] == [];
    FlatMapFirst([post], EntryImages);
    assert FlatMap([post], EntryImages) == urls + [];
  }

  /** One pass of the extraction loop: pushes the candidates of `entry`
      onto `images`. */
  method PushEntryImages(images: seq<string>, entry: Value) returns (pushed: seq<string>)
    ensures pushed == images + EntryImages(entry)
  {
    pushed := images;
    var data := Index(entry, "data");
    var meta := Index(data, "media_metadata");
    if meta.Object? {
      var j := 0;
      while j < |meta.members|
        invariant 0 <= j <= |meta.members|
        invariant pushed == images + GalleryUrls(meta.members[..j])
      {
        assert meta.members[..j + 1][..j] == meta.members[..j];
        pushed := pushed + [GalleryUrl(meta.members[j].0)];
        j := j + 1;
      }
      assert meta.members[..j] == meta.members;
    } else {
      var url := Index(data, "url");
      if url.String? && EndsWith(url.s, JpgSuffix) {
        pushed := pushed + [url.s];
      }
    }
  }

  /** The extraction loop of `download_images`: every entry's candidates,
      in entry order. */
  method CollectImages(entries: Value) returns (images: seq<string>)
    ensures images == Candidates(entries)
  {
    var children := GetImageData(entries);
    images := [];
    var i := 0;
    while i < |children|
      invariant 0 <= i <= |children|
      invariant images == FlatMap(children[..i], EntryImages)
    {
      FlatMapPrefix(children, i, EntryImages);
      images := PushEntryImages(images, children[i]);
      i := i + 1;
    }
    assert children[..i] == children;
  }

  // ---------------------------------------------------------------------
  // Resolution gate and destination naming

  /** `std::cmp::max`. */
  function Max(a: nat, b: nat): (m: nat)
    ensures m >= a && m >= b
    ensures m == a || m == b
  {
    if a >= b then a else b
  }

  /** The resolution gate: an image is kept when its larger side is at
      least 1600 pixels. */
  function Keep(width: nat, height: nat): (keep: bool)
    ensures keep <==> width >= MinDimension || height >= MinDimension
  {
    Max(width, height) >= MinDimension
  }

  /** The orientation tag: "sir" for landscape, "vys" otherwise, so square
      images are tagged "vys". */
  function OrientationPrefix(width: nat, height: nat): (prefix: string)
    ensures |prefix| == 3
    ensures prefix == "sir" <==> width > height
    ensures prefix == "vys" <==> width <= height
  {
    if width > height then "sir" else "vys"
  }

  /** The longest suffix of `s` without '/': everything after its last
      '/', or all of `s` when it has none. */
  function LastSegment(s: string): (seg: string)
    decreases |s|
  {
    if s == [] || s[|s| - 1] == '/' then []
    else LastSegment(s[..|s| - 1]) + [s[|s| - 1]]
  }

  /** The last segment is a suffix free of '/', and the character before it,
      if any, is '/': it is the longest such suffix. */
  lemma {:induction false} LastSegmentSpec(s: string)
    ensures var seg := LastSegment(s);
            |seg| <= |s| && seg == s[|s| - |seg|..] && '/' !in seg &&
            (|seg| < |s| ==> s[|s| - |seg| - 1] == '/')
    decreases |s|
  {
    if s != [] && s[|s| - 1] != '/' {
      var front := s[..|s| - 1];
      LastSegmentSpec(front);
      var seg := LastSegment(front);
      assert LastSegment(s) == seg + [s[|s| - 1]];
      assert front[|front| - |seg|..] == s[|s| - 1 - |seg|..|s| - 1];
    }
  }

  /** The last segment of a path ending in "/" + `segment` is `segment`. */
  lemma {:induction false} LastSegmentAfterSlash(path: string, segment: string)
    requires '/' !in segment
    ensures LastSegment(path + "/" + segment) == segment
    decreases |segment|
  {
    var s := path + "/" + segment;
    if segment != [] {
      var front := segment[..|segment| - 1];
      assert s[..|s| - 1] == path + "/" + front;
      assert s[|s| - 1] == segment[|segment| - 1];
      LastSegmentAfterSlash(path, front);
      assert segment == front + [segment[|segment| - 1]];
    }
  }

  /** What the pattern `[^/]+$` finds in a URL: the non-empty run of
      characters after the last '/', or no match when the URL is empty or
      ends in '/'. */
  function FileNameMatch(url: string): (m: Option<string>)
    ensures m.Some? <==> |url| > 0 && url[|url| - 1] != '/'
    ensures m.Some? ==>
              0 < |m.value| <= |url| && '/' !in m.value &&
              url[|url| - |m.value|..] == m.value &&
              (|m.value| == |url| || url[|url| - |m.value| - 1] == '/')
  {
    LastSegmentSpec(url);
    var seg := LastSegment(url);
    if seg == [] then None else Some(seg)
  }

  /** The file name `{prefix}_{segment}` for an image of the given size
      whose URL ends in `segment`. */
  function Destination(segment: string, width: nat, height: nat): (name: string)
  {
    OrientationPrefix(width, height) + "_" + segment
  }

  /** Two images get the same name exactly when their segments agree and
      they have the same orientation. */
  lemma DestinationInjective(segment1: string, width1: nat, height1: nat,
                             segment2: string, width2: nat, height2: nat)
    ensures Destination(segment1, width1, height1) == Destination(segment2, width2, height2) <==>
            segment1 == segment2 && (width1 > height1 <==> width2 > height2)
  {
    var n1, n2 := Destination(segment1, width1, height1), Destination(segment2, width2, height2);
    if n1 == n2 {
      assert n1[..3] == OrientationPrefix(width1, height1) && n2[..3] == OrientationPrefix(width2, height2);
      assert n1[4..] == segment1 && n2[4..] == segment2;
    }
  }

  /** The destination file name `{prefix}_{last segment}`; none when the
      pattern finds nothing (the source then panics). */
  function FileName(url: string, width: nat, height: nat): (name: Option<string>)
    ensures name.Some? <==> FileNameMatch(url).Some?
    ensures name.Some? ==> |name.value| > 4 && name.value[..3] == OrientationPrefix(width, height) &&
                           name.value[3] == '_' && name.value[4..] == FileNameMatch(url).value
  {
    match FileNameMatch(url)
    case Some(segment) => Some(Destination(segment, width, height))
    case None => None
  }

  /** Two images get the same destination exactly when their URLs end in
      the same segment and they have the same orientation. */
  lemma FileNamesCollide(url1: string, width1: nat, height1: nat, url2: string, width2: nat, height2: nat)
    requires FileNameMatch(url1).Some? && FileNameMatch(url2).Some?
    ensures FileName(url1, width1, height1) == FileName(url2, width2, height2) <==>
            LastSegment(url1) == LastSegment(url2) && (width1 > height1 <==> width2 > height2)
  {
    var n1 := FileName(url1, width1, height1).value;
    var n2 := FileName(url2, width2, height2).value;
    if n1 == n2 {
      assert OrientationPrefix(width1, height1) == n1[..3] == OrientationPrefix(width2, height2);
      assert FileNameMatch(url1).value == n1[4..] == FileNameMatch(url2).value;
    }
    if LastSegment(url1) == LastSegment(url2) && (width1 > height1 <==> width2 > height2) {
      assert OrientationPrefix(width1, height1) == OrientationPrefix(width2, height2);
    }
  }

  /** A landscape 2000x1500 image at ".../photo.jpg" is saved as
      "sir_photo.jpg". */
  lemma PhotoNameExample()
    ensures Keep(2000, 1500)
    ensures FileName("https://i.redd.it/photo.jpg", 2000, 1500) == Some("sir_photo.jpg")
  {
    var url := "https://i.redd.it/photo.jpg";
    assert url == "https://i.redd.it" + "/" + "photo.jpg";
    LastSegmentAfterSlash("https://i.redd.it", "photo.jpg");
    assert LastSegment(url) == "photo.jpg";
    assert FileNameMatch(url) == Some("photo.jpg");
    assert OrientationPrefix(2000, 1500) == "sir";
    assert "sir" + "_" + "photo.jpg" == "sir_photo.jpg";
  }

  // ---------------------------------------------------------------------
  // Processing one image

  /** What fetching and decoding one URL gave: the decoded image's size, or
      the failure of the request, of format detection or of decoding. */
  datatype Download =
    | Decoded(width: nat, height: nat)
    | RequestFailed(err: LibraryError)
    | GuessFailed(err: LibraryError)
    | DecodeFailed(err: LibraryError)

  /** How writing a kept image would go: written in full, or failing when the
      file is created, when the image is re-encoded, or when it is copied
      into the already created file. */
  datatype WriteStep =
    | Written
    | CreateFailed(err: LibraryError)
    | EncodeFailed(err: LibraryError)
    | CopyFailed(err: LibraryError)

  /** The outside world's answer for one image URL. */
  datatype ImageFetch = ImageFetch(download: Download, write: WriteStep)

  /** The file names that processing an image whose URL ends in `segment` creates when they are absent:
      the destination of a decoded image that passes the gate, unless
      creating the file fails. */
  function Creates(segment: string, fetch: ImageFetch): (names: set<string>)
    ensures |names| <= 1
    ensures forall n :: n in names ==>
              fetch.download.Decoded? && n == Destination(segment, fetch.download.width, fetch.download.height)
  {
    match fetch.download
    case Decoded(width, height) =>
      if Keep(width, height) && !fetch.write.CreateFailed? then {Destination(segment, width, height)} else {}
    case _ => {}
  }

  /** The existence-checked write of `process_image` on a set of existing
      file names: the names afterwards and the result returned. A present
      name short-circuits; otherwise a failed create leaves no file, while
      a failed encode or copy leaves the created file behind. */
  function SaveOutcome(files: set<string>, name: string, write: WriteStep): (out: (set<string>, RedditResult<()>))
    ensures name in files ==> out == (files, Ok(()))
    ensures name !in files ==> out.0 == if write.CreateFailed? then files else files + {name}
    ensures out.1.Ok? <==> name in files || write.Written?
    ensures out.1.Err? ==> Cause(out.1.error) == Some(write.err)
    ensures name !in files && write.CreateFailed? ==> out.1 == Err(FromIo(write.err))
    ensures name !in files && write.EncodeFailed? ==> out.1 == Err(FromImage(write.err))
    ensures name !in files && write.CopyFailed? ==> out.1 == Err(FromIo(write.err))
  {
    if name in files then (files, Ok(()))
    else
      match write
      case CreateFailed(err) => (files, Err(FromIo(err)))
      case EncodeFailed(err) => (files + {name}, Err(FromImage(err)))
      case CopyFailed(err) => (files + {name}, Err(FromIo(err)))
      case Written => (files + {name}, Ok(()))
  }

  /** `process_image` on a set of existing file names, for an image whose
      URL's `[^/]+$` match is `segment`: the names afterwards and the result
      returned. */
  function ProcessOutcome(files: set<string>, segment: string, fetch: ImageFetch): (out: (set<string>, RedditResult<()>))
  {
    match fetch.download
    case RequestFailed(err) => (files, Err(FromReqwest(err)))
    case GuessFailed(err) => (files, Err(FromIo(err)))
    case DecodeFailed(err) => (files, Err(FromImage(err)))
    case Decoded(width, height) =>
      if !Keep(width, height) then (files, Ok(()))
      else SaveOutcome(files, Destination(segment, width, height), fetch.write)
  }

  /** The names after processing are the names before plus what the image
      creates; the result is `Ok` exactly when the image decoded and was
      discarded by the gate, was already present, or was written in full. */
  lemma ProcessOutcomeSpec(files: set<string>, segment: string, fetch: ImageFetch)
    ensures var out := ProcessOutcome(files, segment, fetch);
            out.0 == files + Creates(segment, fetch) &&
            (out.1.Ok? <==>
               fetch.download.Decoded? &&
               (!Keep(fetch.download.width, fetch.download.height) ||
                Destination(segment, fetch.download.width, fetch.download.height) in files ||
                fetch.write.Written?))
  {
  }

  /** Each failing step of `process_image` surfaces as that step's library
      error under its own `From` conversion, and every other step is
      skipped; a decoded image whose destination already exists changes
      nothing and succeeds. */
  lemma ProcessErrorsAndShortCircuit(files: set<string>, segment: string, fetch: ImageFetch)
    ensures var out := ProcessOutcome(files, segment, fetch);
            var d := fetch.download;
            (out.1.Err? ==> Cause(out.1.error).Some?) &&
            (d.RequestFailed? ==> out == (files, Err(FromReqwest(d.err)))) &&
            (d.GuessFailed? ==> out == (files, Err(FromIo(d.err)))) &&
            (d.DecodeFailed? ==> out == (files, Err(FromImage(d.err)))) &&
            (d.Decoded? && !Keep(d.width, d.height) ==> out == (files, Ok(()))) &&
            (d.Decoded? && Destination(segment, d.width, d.height) in files ==> out == (files, Ok(())))
    ensures var out := ProcessOutcome(files, segment, fetch);
            var d := fetch.download;
            var w := fetch.write;
            d.Decoded? && Keep(d.width, d.height) && Destination(segment, d.width, d.height) !in files ==>
              (w.CreateFailed? ==> out.1 == Err(FromIo(w.err))) &&
              (w.EncodeFailed? ==> out.1 == Err(FromImage(w.err))) &&
              (w.CopyFailed? ==> out.1 == Err(FromIo(w.err)))
  {
  }

  /** Processing the same image twice leaves the names as processing it
      once, and a call that succeeded is followed by one that succeeds. */
  lemma ProcessIdempotent(files: set<string>, segment: string, fetch: ImageFetch)
    ensures var once := ProcessOutcome(files, segment, fetch);
            var twice := ProcessOutcome(once.0, segment, fetch);
            twice.0 == once.0 && (once.1.Ok? ==> twice.1.Ok?)
  {
  }

  /** A write that fails after the file was created leaves that name in
      place, and every later call for the image treats it as done. */
  lemma FailedWriteIsNotRetried(files: set<string>, segment: string, fetch: ImageFetch)
    requires fetch.download.Decoded? && Keep(fetch.download.width, fetch.download.height)
    requires fetch.write.EncodeFailed? || fetch.write.CopyFailed?
    ensures var once := ProcessOutcome(files, segment, fetch);
            Destination(segment, fetch.download.width, fetch.download.height) in once.0 &&
            ProcessOutcome(once.0, segment, ImageFetch(fetch.download, Written)) == (once.0, Ok(()))
  {
  }

  // ---------------------------------------------------------------------
  // Tasks and their joins

  /** How awaiting one spawned task ended. */
  datatype JoinOutcome = Joined | Panicked

  /** A task unwraps `process_image`'s result, so an error ends it in a
      panic that its join reports. */
  function TaskJoin(r: RedditResult<()>): (j: JoinOutcome)
    ensures j.Joined? <==> r.Ok?
  {
    if r.Ok? then Joined else Panicked
  }

  /** Runs the tasks for `urls` one after another in spawn order: the names
      afterwards and each task's join outcome. */
  function RunTasks(files: set<string>, urls: seq<string>, env: string -> ImageFetch): (out: (set<string>, seq<JoinOutcome>))
    requires forall u :: u in urls ==> FileNameMatch(u).Some?
    ensures |out.1| == |urls|
    decreases |urls|
  {
    if urls == [] then (files, [])
    else
      var last := urls[|urls| - 1];
      var before := RunTasks(files, urls[..|urls| - 1], env);
      var step := ProcessOutcome(before.0, FileNameMatch(last).value, env(last));
      (step.0, before.1 + [TaskJoin(step.1)])
  }

  /** `RunTasksSnoc` for the prefixes the spawn loop walks: running one
      more task extends the run by that task's step. */
  lemma RunTasksPrefix(files: set<string>, urls: seq<string>, i: nat, env: string -> ImageFetch)
    requires forall u :: u in urls ==> FileNameMatch(u).Some?
    requires i < |urls|
    ensures forall u :: u in urls[..i + 1] ==> FileNameMatch(u).Some?
    ensures var before := RunTasks(files, urls[..i], env);
            var step := ProcessOutcome(before.0, FileNameMatch(urls[i]).value, env(urls[i]));
            RunTasks(files, urls[..i + 1], env) == (step.0, before.1 + [TaskJoin(step.1)])
  {
    assert urls[..i + 1] == urls[..i] + [urls[i]];
    RunTasksSnoc(files, urls[..i], urls[i], env);
  }

  /** The result `process_image` gives the `k`-th task of a pass over
      `urls`, run on the names the earlier tasks left. */
  function TaskResult(files: set<string>, urls: seq<string>, env: string -> ImageFetch, k: nat): (r: RedditResult<()>)
    requires forall u :: u in urls ==> FileNameMatch(u).Some?
    requires k < |urls|
  {
    assert forall u :: u in urls[..k] ==> u in urls;
    var segment := FileNameMatch(urls[k]).value;
    ProcessOutcome(RunTasks(files, urls[..k], env).0, segment, env(urls[k])).1
  }

  /** The `k`-th join outcome of a pass is the join of the `k`-th task's
      `process_image` result. */
  lemma {:induction false} RunTasksJoins(files: set<string>, urls: seq<string>, env: string -> ImageFetch, k: nat)
    requires forall u :: u in urls ==> FileNameMatch(u).Some?
    requires k < |urls|
    ensures RunTasks(files, urls, env).1[k] == TaskJoin(TaskResult(files, urls, env, k))
    decreases |urls|
  {
    var front := urls[..|urls| - 1];
    assert forall u :: u in front ==> u in urls;
    if k < |front| {
      RunTasksJoins(files, front, env, k);
      assert front[..k] == urls[..k];
      assert front[k] == urls[k];
    } else {
      assert urls[..k] == front;
    }
  }

  /** Every task of a pass joins exactly when every task's `process_image`
      returned `Ok`. */
  lemma RunTasksAllJoined(files: set<string>, urls: seq<string>, env: string -> ImageFetch)
    requires forall u :: u in urls ==> FileNameMatch(u).Some?
    ensures var joins := RunTasks(files, urls, env).1;
            (forall k :: 0 <= k < |joins| ==> joins[k].Joined?) <==>
            (forall k :: 0 <= k < |urls| ==> TaskResult(files, urls, env, k).Ok?)
  {
    forall k | 0 <= k < |urls|
      ensures RunTasks(files, urls, env).1[k] == TaskJoin(TaskResult(files, urls, env, k))
    {
      RunTasksJoins(files, urls, env, k);
    }
  }

  /** Every name any of the tasks for `urls` would create. */
  function AllCreated(urls: seq<string>, env: string -> ImageFetch): (names: set<string>)
    requires forall u :: u in urls ==> FileNameMatch(u).Some?
    decreases |urls|
  {
    if urls == [] then {}
    else AllCreated(urls[..|urls| - 1], env) + Creates(FileNameMatch(urls[|urls| - 1]).value, env(urls[|urls| - 1]))
  }

  /** The names after a pass are the names before plus what its tasks
      create, whatever existed before. */
  lemma {:induction false} RunTasksFiles(files: set<string>, urls: seq<string>, env: string -> ImageFetch)
    requires forall u :: u in urls ==> FileNameMatch(u).Some?
    ensures RunTasks(files, urls, env).0 == files + AllCreated(urls, env)
    decreases |urls|
  {
    if urls != [] {
      var front, last := urls[..|urls| - 1], urls[|urls| - 1];
      assert forall u :: u in front ==> FileNameMatch(u).Some?;
      RunTasksFiles(files, front, env);
      ProcessOutcomeSpec(RunTasks(files, front, env).0, FileNameMatch(last).value, env(last));
    }
  }

  /** A later pass whose candidates all occurred in an earlier pass (the
      "new" listing repeating posts of the "hot" one, or the same listing
      again) creates nothing new. */
  lemma RunTasksIdempotent(files: set<string>, a: seq<string>, b: seq<string>, env: string -> ImageFetch)
    requires forall u :: u in a ==> FileNameMatch(u).Some?
    requires forall u :: u in b ==> u in a
    ensures var once := RunTasks(files, a, env).0;
            RunTasks(once, b, env).0 == once
  {
    RunTasksFiles(files, a, env);
    RunTasksFiles(RunTasks(files, a, env).0, b, env);
    AllCreatedSubset(b, a, env);
  }

  /** What one task creates is among what the whole pass creates. */
  lemma {:induction false} CreatesInAllCreated(urls: seq<string>, i: nat, env: string -> ImageFetch)
    requires forall u :: u in urls ==> FileNameMatch(u).Some?
    requires i < |urls|
    ensures Creates(FileNameMatch(urls[i]).value, env(urls[i])) <= AllCreated(urls, env)
    decreases |urls|
  {
    var front := urls[..|urls| - 1];
    if i < |front| {
      assert forall u :: u in front ==> u in urls;
      CreatesInAllCreated(front, i, env);
      assert front[i] == urls[i];
    }
  }

  /** A pass over candidates that all occur in `b` creates nothing that a
      pass over `b` does not. */
  lemma {:induction false} AllCreatedSubset(a: seq<string>, b: seq<string>, env: string -> ImageFetch)
    requires forall u :: u in b ==> FileNameMatch(u).Some?
    requires forall u :: u in a ==> u in b
    ensures AllCreated(a, env) <= AllCreated(b, env)
    decreases |a|
  {
    if a != [] {
      var front, last := a[..|a| - 1], a[|a| - 1];
      assert forall u :: u in front ==> u in a;
      AllCreatedSubset(front, b, env);
      assert last in b;
      var j :| 0 <= j < |b| && b[j] == last;
      CreatesInAllCreated(b, j, env);
    }
  }

  /** The names written depend only on which candidates there are, not on
      the order the tasks run in nor on repetitions; in particular any
      permutation of the candidates writes the same names. */
  lemma RunTasksOrderIrrelevant(files: set<string>, a: seq<string>, b: seq<string>, env: string -> ImageFetch)
    requires forall u :: u in a ==> FileNameMatch(u).Some?
    requires forall u :: u in a <==> u in b
    ensures RunTasks(files, a, env).0 == RunTasks(files, b, env).0
  {
    RunTasksFiles(files, a, env);
    RunTasksFiles(files, b, env);
    AllCreatedSubset(a, b, env);
    AllCreatedSubset(b, a, env);
  }

  /** A pass over one candidate is that candidate's task. */
  lemma RunTasksSingle(files: set<string>, u: string, env: string -> ImageFetch)
    requires FileNameMatch(u).Some?
    ensures var step := ProcessOutcome(files, FileNameMatch(u).value, env(u));
            RunTasks(files, [u], env) == (step.0, [TaskJoin(step.1)])
  {
    assert [u][..0] == [];
    assert [u][|[u]| - 1] == u;
    var before := RunTasks(files, [], env);
    assert before == (files, []);
    var step := ProcessOutcome(files, FileNameMatch(u).value, env(u));
    assert RunTasks(files, [u], env) == (step.0, before.1 + [TaskJoin(step.1)]);
    assert before.1 + [TaskJoin(step.1)] == [TaskJoin(step.1)];
  }

  /** Appending a candidate to a pass runs its task last, on the names
      the pass left. */
  lemma RunTasksSnoc(files: set<string>, urls: seq<string>, u: string, env: string -> ImageFetch)
    requires forall v :: v in urls ==> FileNameMatch(v).Some?
    requires FileNameMatch(u).Some?
    ensures forall v :: v in urls + [u] ==> FileNameMatch(v).Some?
    ensures var before := RunTasks(files, urls, env);
            var step := ProcessOutcome(before.0, FileNameMatch(u).value, env(u));
            RunTasks(files, urls + [u], env) == (step.0, before.1 + [TaskJoin(step.1)])
  {
    assert (urls + [u])[..|urls|] == urls;
    assert (urls + [u])[|urls|] == u;
  }

  /** A pass over two candidates runs the first task, then the second on
      the names the first left. */
  lemma RunTasksPair(files: set<string>, u1: string, u2: string, env: string -> ImageFetch)
    requires FileNameMatch(u1).Some? && FileNameMatch(u2).Some?
    ensures var first := ProcessOutcome(files, FileNameMatch(u1).value, env(u1));
            var second := ProcessOutcome(first.0, FileNameMatch(u2).value, env(u2));
            RunTasks(files, [u1, u2], env) == (second.0, [TaskJoin(first.1), TaskJoin(second.1)])
  {
    RunTasksSingle(files, u1, env);
    RunTasksSnoc(files, [u1], u2, env);
    assert [u1] + [u2] == [u1, u2];
    var first := ProcessOutcome(files, FileNameMatch(u1).value, env(u1));
    var second := ProcessOutcome(first.0, FileNameMatch(u2).value, env(u2));
    assert [TaskJoin(first.1)] + [TaskJoin(second.1)] == [TaskJoin(first.1), TaskJoin(second.1)];
  }

  /** The result of a pass does depend on the order: when two candidates
      share a destination, a task whose encode fails after creating the file
      panics if it runs first, while run second it finds the file present
      and succeeds. */
  lemma RunResultDependsOnOrder(files: set<string>, u1: string, u2: string, env: string -> ImageFetch,
                                width: nat, height: nat, err: LibraryError)
    requires FileNameMatch(u1).Some? && FileNameMatch(u2).Some?
    requires FileNameMatch(u1).value == FileNameMatch(u2).value
    requires Keep(width, height)
    requires Destination(FileNameMatch(u1).value, width, height) !in files
    requires env(u1) == ImageFetch(Decoded(width, height), EncodeFailed(err))
    requires env(u2) == ImageFetch(Decoded(width, height), Written)
    ensures RunTasks(files, [u1, u2], env).1 == [Panicked, Joined]
    ensures RunTasks(files, [u2, u1], env).1 == [Joined, Joined]
    ensures RunTasks(files, [u1, u2], env).0 == RunTasks(files, [u2, u1], env).0
  {
    var segment := FileNameMatch(u1).value;
    var name := Destination(segment, width, height);
    assert ProcessOutcome(files, segment, env(u1)) == (files + {name}, Err(FromImage(err)));
    assert ProcessOutcome(files + {name}, segment, env(u2)) == (files + {name}, Ok(()));
    RunTasksPair(files, u1, u2, env);
    assert ProcessOutcome(files, segment, env(u2)) == (files + {name}, Ok(()));
    assert ProcessOutcome(files + {name}, segment, env(u1)) == (files + {name}, Ok(()));
    RunTasksPair(files, u2, u1, env);
  }

  /** The join loop of `download_images`: success exactly when every task
      joined; otherwise the message error "Thread joining failed". */
  method AggregateJoins(outcomes: seq<JoinOutcome>) returns (r: RedditResult<()>)
    ensures r.Ok? <==> forall k :: 0 <= k < |outcomes| ==> outcomes[k].Joined?
    ensures r.Err? ==> r.error == FromMessage(JoinFailedMessage) && Display(r.error) == JoinFailedMessage
  {
    var ok := true;
    for k := 0 to |outcomes|
      invariant ok <==> forall m :: 0 <= m < k ==> outcomes[m].Joined?
    {
      if outcomes[k].Panicked? {
        ok := false;
      }
    }
    if ok {
      r := Ok(());
    } else {
      r := Err(FromMessage(JoinFailedMessage));
    }
  }

  // ---------------------------------------------------------------------
  // The working directory

  /** The process's working directory, as the set of file names in it. */
  class WorkingDir {
    var files: set<string>

    constructor (existing: set<string>)
      ensures files == existing
    {
      files := existing;
    }

    /** `process_image`: fetch, decode, gate, name, and write the image
        unless a file of that name exists. */
    method ProcessImage(url: string, fetch: ImageFetch) returns (r: RedditResult<()>)
      requires FileNameMatch(url).Some?
      modifies this
      ensures (files, r) == ProcessOutcome(old(files), FileNameMatch(url).value, fetch)
    {
      var width: nat, height: nat;
      match fetch.download {
        case RequestFailed(err) => return Err(FromReqwest(err));
        case GuessFailed(err) => return Err(FromIo(err));
        case DecodeFailed(err) => return Err(FromImage(err));
        case Decoded(w, h) => width, height := w, h;
      }
      if Max(width, height) >= MinDimension {
        var name := FileName(url, width, height).value;
        r := SaveImage(name, fetch.write);
      } else {
        r := Ok(());
      }
    }

    /** The existence-checked write: create the file, then encode and copy
        the image into it, unless a file of that name exists. */
    method SaveImage(name: string, write: WriteStep) returns (r: RedditResult<()>)
      modifies this
      ensures (files, r) == SaveOutcome(old(files), name, write)
    {
      if name !in files {
        if write.CreateFailed? {
          return Err(FromIo(write.err));
        }
        files := files + {name};
        match write {
          case EncodeFailed(err) => return Err(FromImage(err));
          case CopyFailed(err) => return Err(FromIo(err));
          case _ =>
        }
      }
      r := Ok(());
    }

    /** `download_images` for one listing document: extract the candidates,
        run one task per candidate, then fold the joins. */
    method DownloadImages(entries: Value, env: string -> ImageFetch) returns (r: RedditResult<()>)
      modifies this
      ensures var run := RunTasks(old(files), Candidates(entries), env);
              files == run.0 &&
              (r.Ok? <==> forall k :: 0 <= k < |run.1| ==> run.1[k].Joined?) &&
              (r.Err? ==> r.error == FromMessage(JoinFailedMessage))
      ensures var candidates := Candidates(entries);
              r.Ok? <==> forall k :: 0 <= k < |candidates| ==> TaskResult(old(files), candidates, env, k).Ok?
    {
      var images := CollectImages(entries);
      var outcomes: seq<JoinOutcome> := [];
      var i := 0;
      while i < |images|
        invariant 0 <= i <= |images|
        invariant (files, outcomes) == RunTasks(old(files), images[..i], env)
      {
        RunTasksPrefix(old(files), images, i, env);
        var result := ProcessImage(images[i], env(images[i]));
        outcomes := outcomes + [TaskJoin(result)];
        i := i + 1;
      }
      assert images[..i] == images;
      RunTasksAllJoined(old(files), images, env);
      r := AggregateJoins(outcomes);
    }
  }

}
