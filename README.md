# reddit-image-downloader, modelled in Dafny

The program harvests images from boards ("subreddits") of a listing service.
For each board and each sort endpoint (`hot.json`, `new.json`) it fetches a
listing document and extracts the candidate image URLs. A gallery post gives
one `https://i.redd.it/{key}.jpg` per `media_metadata` key. A plain post
gives its own `url` if that ends in `.jpg`. One task per candidate then
downloads and decodes the image. The task discards it unless its larger side
is at least 1600 pixels. Otherwise it names the file `sir_…` (landscape) or
`vys_…` (portrait or square) after the URL's last path segment, and writes it
only if no file of that name exists. The pass succeeds when every task
joined.

This project models that core, from `src/subreddit.rs` and `src/error.rs`:

- `wrappers.dfy`: `Option`.
- `json.dfy` (module `Json`): the parsed JSON value, with objects as ordered
  key/value pairs. It also defines `value["key"]` indexing, which gives
  `Null` for a missing key or a non-object.
- `error.dfy` (module `Error`): `RedditError` with its optional source and
  message, the `From` constructors, `Display` precedence and `cause`.
  Library errors are opaque values that carry their display text.
- `subreddit.dfy` (module `Subreddit`):
  - the listing URL;
  - candidate extraction, as functions and as the imperative loop of
    `download_images`;
  - the resolution gate, the orientation prefix, and the `[^/]+$` file-name
    match;
  - `process_image`, as a method on a `WorkingDir` class whose `files: set<string>`
    field holds the names of the files in the working directory;
  - the sequence of tasks, and the join loop with its `ok` flag.

The network, the JSON parser and the image codec are parameters. One
`ImageFetch` value says how downloading and decoding an image went, and how
each step of writing it would go. `DownloadImages` gets these answers as a
function from URL to `ImageFetch`.

## Model

| member | source | states |
|---|---|---|
| Json.Lookup | src/subreddit.rs:66-71 | a key is found exactly when some member has it |
| Json.LookupFindsMember | src/subreddit.rs:66-71 | with unique keys, looking up a member's key gives that member's value |
| Json.Index | src/subreddit.rs:52 | indexing a non-object, or an object without the key, gives `Null` |
| Json.IndexFindsMember | src/subreddit.rs:66-71 | with unique keys, indexing by a member's key gives that member's value |
| Error.Display | src/error.rs:19-42 | a message wins over any source; otherwise the source's own text; with neither, exactly "FATAL: No message for given error" |
| Error.Cause | src/error.rs:86-96 | `Some` exactly when there is a source, and then it is the wrapped library error |
| Error.FromReqwest | src/error.rs:44-51 | source is the `Reqwest` variant, no message; the cause is the input and the display is its text |
| Error.FromSerde | src/error.rs:53-60 | source is the `Serde` variant, no message; the cause is the input and the display is its text |
| Error.FromImage | src/error.rs:62-69 | source is the `Image` variant, no message; the cause is the input and the display is its text |
| Error.FromIo | src/error.rs:71-75 | source is the `IO` variant, no message; the cause is the input and the display is its text |
| Error.FromMessage | src/error.rs:77-84 | no source, the message set; there is no cause and the display is the message verbatim |
| Subreddit.EndsWith | src/subreddit.rs:72 | `ends_with`: the string's last characters are the suffix |
| Subreddit.Url | src/subreddit.rs:39-41 | the URL is the listing base, then the board name, then '/', then the endpoint |
| Subreddit.UrlInjective | src/subreddit.rs:39-41 | with a '/'-free endpoint, two listing URLs are equal exactly when board and endpoint are |
| Subreddit.GetImageData | src/subreddit.rs:51-60 | the `data.children` array, or an empty sequence (never an error) when it is missing or not an array |
| Subreddit.GalleryUrl | src/subreddit.rs:69 | one gallery item's address, `https://i.redd.it/` + key + `.jpg`; `GalleryUrlInjective` is its partner |
| Subreddit.GalleryUrls | src/subreddit.rs:67-70 | one address per `media_metadata` member, in member order, each `https://i.redd.it/` + key + `.jpg` |
| Subreddit.GalleryUrlInjective | src/subreddit.rs:69 | two gallery addresses are equal exactly when their keys are |
| Subreddit.GalleryUrlsDistinct | src/subreddit.rs:67-70 | a gallery with unique keys yields K pairwise distinct addresses |
| Subreddit.EntryImages | src/subreddit.rs:66-75 | the candidates of one listing entry; its rules are stated by `EntryImagesRules` and `EntryImagesAreJpg` |
| Subreddit.EntryImagesRules | src/subreddit.rs:66-75 | an object `media_metadata` with K keys gives exactly those K addresses; otherwise a `url` string ending in `.jpg` gives itself verbatim; otherwise nothing |
| Subreddit.EntryImagesAreJpg | src/subreddit.rs:67-74 | every address an entry contributes ends in `.jpg` |
| Subreddit.FlatMap | src/subreddit.rs:64-76 | each entry's contribution, concatenated in entry order; its laws are the three lemmas below |
| Subreddit.FlatMapAppend | src/subreddit.rs:64-76 | extracting from two runs of entries gives the concatenation of the two extractions |
| Subreddit.FlatMapFirst | src/subreddit.rs:64-76 | the first entry's addresses come first, then the rest in order |
| Subreddit.FlatMapMembership | src/subreddit.rs:64-76 | an address is extracted exactly when some entry contributes it |
| Subreddit.Candidates | src/subreddit.rs:51-76 | no candidates without a `data.children` array; every candidate ends in `.jpg` and has a file-name match |
| Subreddit.CandidateMembership | src/subreddit.rs:64-76 | a URL is a candidate exactly when some child entry contributes it |
| Subreddit.GalleryListingExample | src/subreddit.rs:64-76 | a gallery post with keys "abc" and "def" yields `https://i.redd.it/abc.jpg` then `https://i.redd.it/def.jpg` |
| Subreddit.PushEntryImages | src/subreddit.rs:66-75 | one pass of the extraction loop appends exactly that entry's candidates |
| Subreddit.CollectImages | src/subreddit.rs:64-76 | the extraction loop builds exactly the candidate list, in document order |
| Subreddit.Max | src/subreddit.rs:15 | `std::cmp::max`: at least both arguments, and equal to one of them |
| Subreddit.Keep | src/subreddit.rs:15 | kept exactly when width or height reaches 1600, so a larger side of 1599 is discarded and 1600 kept |
| Subreddit.OrientationPrefix | src/subreddit.rs:16-21 | "sir" exactly when width > height, "vys" otherwise (ties included) |
| Subreddit.LastSegment | src/subreddit.rs:78 | the run of characters after the last '/'; characterised by `LastSegmentSpec` |
| Subreddit.LastSegmentSpec | src/subreddit.rs:78 | the last segment is a suffix free of '/', and preceded by '/' unless it is the whole string |
| Subreddit.LastSegmentAfterSlash | src/subreddit.rs:78 | for a path ending in "/" plus a '/'-free segment, the last segment is that segment |
| Subreddit.FileNameMatch | src/subreddit.rs:25 | the `[^/]+$` match exists exactly when the URL ends in a character other than '/', and is then the non-empty run after the last '/' |
| Subreddit.Destination | src/subreddit.rs:16-26 | the name `{prefix}_{segment}` for an image of the given size whose URL ends in `segment` |
| Subreddit.DestinationInjective | src/subreddit.rs:16-26 | two names are equal exactly when the segments are equal and the orientations agree |
| Subreddit.FileName | src/subreddit.rs:22-26 | the name is the 3-letter orientation prefix, '_', then the matched segment |
| Subreddit.FileNamesCollide | src/subreddit.rs:16-26 | two images share a destination exactly when their URLs end in the same segment and they have the same orientation |
| Subreddit.PhotoNameExample | src/subreddit.rs:15-26 | a 2000x1500 image at `.../photo.jpg` is kept and named `sir_photo.jpg` |
| Subreddit.Creates | src/subreddit.rs:27-28 | at most one name is created, and it is the destination name of a decoded image |
| Subreddit.SaveOutcome | src/subreddit.rs:27-33 | a present name changes nothing and gives `Ok`; otherwise a failed create adds nothing, any later failure leaves the name created; `Ok` exactly when the name was present or the write succeeded; a failed create or copy is returned as `From<io::Error>` and a failed encode as `From<ImageError>` of the step's own error |
| Subreddit.ProcessOutcome | src/subreddit.rs:12-36 | `process_image` on a set of names, given the URL's file-name match: the names afterwards and the result; its properties are the lemmas below |
| Subreddit.ProcessOutcomeSpec | src/subreddit.rs:12-36 | the names after processing are the names before plus what it creates; the result is `Ok` exactly when the image decoded and was then discarded by the gate, already present, or fully written |
| Subreddit.ProcessErrorsAndShortCircuit | src/subreddit.rs:12-36 | each failing step returns its own error under its own `From`: request as `Reqwest`, format guess as `IO`, decode as `Image`, create and copy as `IO`, encode as `Image`, with nothing written before a failed create; an image under the size gate writes nothing and returns `Ok`; a decoded image whose destination is present leaves everything unchanged and returns `Ok` |
| Subreddit.ProcessIdempotent | src/subreddit.rs:27-33 | processing the same image twice leaves the same names as once, and a success is followed by a success |
| Subreddit.FailedWriteIsNotRetried | src/subreddit.rs:27-33 | an encode or copy failure leaves the created name behind, so a later call returns `Ok` without writing |
| Subreddit.WorkingDir.ProcessImage | src/subreddit.rs:12-36 | the new file set and the result are those `ProcessOutcome` gives for the old file set and the URL's file-name match |
| Subreddit.WorkingDir.SaveImage | src/subreddit.rs:27-33 | the new file set and the result are those `SaveOutcome` gives for the old file set |
| Subreddit.TaskJoin | src/subreddit.rs:84-86 | a task joins normally exactly when its `process_image` result is `Ok`; an error is unwrapped into a panic |
| Subreddit.RunTasks | src/subreddit.rs:79-87 | one join outcome per candidate |
| Subreddit.TaskResult | src/subreddit.rs:79-87 | the `process_image` result of the k-th task, on the names the earlier tasks left |
| Subreddit.RunTasksJoins | src/subreddit.rs:84-86 | the k-th join outcome is the join of the k-th task's `process_image` result |
| Subreddit.RunTasksAllJoined | src/subreddit.rs:84-99 | every task joins exactly when every task's `process_image` returned `Ok` |
| Subreddit.AllCreated | src/subreddit.rs:79-87 | the union of the names each task of a pass would create |
| Subreddit.RunTasksFiles | src/subreddit.rs:79-87 | the names after a pass are the names before plus what the tasks create, whatever existed before |
| Subreddit.RunTasksIdempotent | src/subreddit.rs:79-87 | a later pass whose candidates all occurred in an earlier pass (the `new.json` listing repeating some `hot.json` posts, or the same list again) creates nothing new |
| Subreddit.CreatesInAllCreated | src/subreddit.rs:79-87 | what one task creates is among what its pass creates |
| Subreddit.AllCreatedSubset | src/subreddit.rs:79-87 | a pass over candidates that all occur in another list creates no name a pass over that list does not |
| Subreddit.RunTasksOrderIrrelevant | src/subreddit.rs:79-87 | two passes over the same candidates, in any order and with any repetition (so any permutation), write the same names |
| Subreddit.RunTasksSingle | src/subreddit.rs:79-87 | a pass over one candidate is that candidate's task |
| Subreddit.RunTasksSnoc | src/subreddit.rs:79-87 | one more candidate at the end runs its task last, on the names the pass left |
| Subreddit.RunTasksPair | src/subreddit.rs:79-87 | a pass over two candidates runs the second task on the names the first left |
| Subreddit.RunResultDependsOnOrder | src/subreddit.rs:27-33 | the result of a pass does depend on order: two candidates with the same destination, the first failing its encode, give `[Panicked, Joined]` in one order and `[Joined, Joined]` in the other, with the same names written |
| Subreddit.AggregateJoins | src/subreddit.rs:88-99 | `Ok` exactly when every join succeeded; otherwise the message error "Thread joining failed" |
| Subreddit.WorkingDir.DownloadImages | src/subreddit.rs:62-100 | the new file set is that of running one task per candidate in order; the result is `Ok` exactly when every task joined, that is exactly when every candidate's `process_image` returned `Ok`, and otherwise the "Thread joining failed" error |

## Left out

- HTTP: `images_for` (src/subreddit.rs:43-49) and the image GET at :13 are not modelled. The listing document and each image's fetch outcome are inputs, and the unwrap of the listing result at :63 is not modelled.
- JSON text parsing, image format detection and decoding, and JPEG re-encoding at quality 100 are foreign libraries. Only the parsed value, the `(width, height)` of a decoded image and the success or failure of each step are modelled. File contents are not modelled; a file is just its name.
- Library error payloads are opaque values known by their display text. Their kinds and internal causes are not modelled.
- Concurrency: `tokio::spawn` tasks run one after another in spawn order, and the non-atomic check-then-create race between tasks that share a destination name is not modelled. `RunTasksOrderIrrelevant` shows that any order of the tasks writes the same names. The pass's result does depend on the order when two candidates share a destination and one fails after creating the file (`RunResultDependsOnOrder`). A panicking task is the only join failure that is modelled. Cancellation is not.
- `DownloadImages`: every request for the same URL gets the same answer within the model, because the outside world is one function from URL to outcome.
- `WorkingDir.ProcessImage`: requires that the `[^/]+$` pattern matches the URL. The source unwraps that match, so for a URL without one it would panic once the image decodes and passes the size gate (a failed request or decode, or a small image, returns before the unwrap); every extracted candidate ends in `.jpg`, so the requirement always holds for the URLs that `download_images` passes (`Candidates`).
- The console output (`println!` of the request URL, of the empty-listing notice and of join errors) is left out.
- src/reddit.rs (fan-out over boards, and running `hot.json` then `new.json` for each) and src/main.rs (argument collection, runtime setup) are not part of this model.
- The regex engine is replaced by `LastSegment`, which gives the text after the last '/'.
- JSON numbers keep their literal text, because the core never reads them.
- An object value may repeat a key, which a parsed JSON map never does. Indexing then finds the first member, and a gallery with a repeated key yields that address twice. The lemmas that need distinct keys (`LookupFindsMember`, `IndexFindsMember`, `GalleryUrlsDistinct`) require `UniqueKeys`.
