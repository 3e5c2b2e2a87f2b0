# Eye-overlay NFT sketch — verified model

This project models the deterministic core of a p5.js sketch. The sketch draws a
mirrored webcam picture and puts a randomly chosen Tezos NFT image over both irises
of the detected face. A button fetches a different image. The model has three parts:

- **Media resolution** (`media.dfy`, module `Media`). A tzkt token-balance reply
  goes in and the URL handed to `loadImage` comes out, or the error the sketch
  throws. The sketch tries four sources in priority order, using JavaScript `||`
  truthiness: `artifactUri`, `formats[0].uri`, `displayUri`, `thumbnailUri`. It
  rewrites `ipfs://` to the `https://ipfs.io/ipfs/` gateway. When the media looks
  like video (a `video…` MIME type, or a `.mp4`/`.webm` suffix in any letter case),
  it uses the display or thumbnail still image instead.
- **Frame rendering** (`render.dfy`, module `Render`). One call of `draw` becomes a
  pure function from the session flags to a list of draw actions: background,
  labels, the mirrored video frame and the two eye overlays. The iris `centroid`
  is a loop method proved equal to the arithmetic mean (`MeanPoint`). The mean is
  proved independent of index order. Each overlay's placement is derived from the
  two outer eye corners (keypoints 33 and 362): the angle from `atan2`, the size
  as 0.7 × `dist`. The left overlay is flipped `(1,-1)` and the right `(-1,-1)`.
- **Session state** (`session.dfy`, class `Session.Session`). These are the
  sketch's module-level variables (`faces`, `nftImg`, `loading`, `videoError`,
  `video`) and the button's `isLoading` guard, label and enabled state. Methods
  stand for the events: a detection result, the webcam starting or failing, a
  load starting and settling, a click, and the click's load settling. A ghost
  counter of outstanding button loads is tied to `isLoading`. It shows that the
  button never has more than one load in flight.

Numbers are Dafny `real`s. `atan2` and `dist` are arbitrary functions passed in a
`Numerics` value, so every property holds whatever they compute.

## Model

| member | source | states |
|---|---|---|
| `Media.IndexOfFrom` | sketch.js:157 | The search behind `String.replace`: a result is a match at or after `from` with no earlier match. No result means there is no match at or after `from`; since `replace` searches from 0, that is no match at all. |
| `Media.RewriteIpfs` | sketch.js:156-157 | A URL that starts with `ipfs://` becomes the gateway prefix followed by the rest of the URL. Any other URL is unchanged. The result never starts with `ipfs://`, and a non-empty URL stays non-empty. |
| `Media.FirstTruthy` | sketch.js:150-154 | Reference priority chain: a result exists iff some value is non-empty. That result is the first non-empty value, and every value before it is absent or empty. |
| `Media.OrChainIsFirstTruthy` | sketch.js:150-154 | The JavaScript `a \|\| b \|\| c \|\| d` chain picks the same value as the reference chain. If the chain's value is falsy, no value is non-empty. |
| `Media.PrimaryMedia` | sketch.js:150-155 | The primary media is the first non-empty value among `artifactUri`, `formats[0].uri`, `displayUri` and `thumbnailUri`. It fails with `NoMediaUrl` exactly when all four are absent or empty. |
| `Media.ResolveMedia` | sketch.js:150-166 | It fails with `NoMediaUrl` exactly when no source is present. Otherwise the URL is non-empty and never starts with `ipfs://`. Non-video media keeps the rewritten primary. Video media takes the rewritten `displayUri`, then the rewritten `thumbnailUri`, and keeps the rewritten primary only when neither is present. |
| `Media.VideoMimeUsesStill` | sketch.js:159-165 | When the MIME type declares a video and a display or thumbnail URI is present, the result is that still URL, rewritten. |
| `Media.WithMetadata` | sketch.js:145 | The filter keeps only balances whose token has metadata, and keeps every such balance as often as it occurs in the reply. |
| `Media.WithMetadataAppend` | sketch.js:145 | The filter keeps order: filtering a concatenation gives the filtered parts, concatenated. |
| `Media.FetchMedia` | sketch.js:141-166 | A network failure, a non-ok status or a malformed body each gives its own error. An ok reply with no balance carrying metadata gives `NoNftsWithMetadata`. Otherwise the result is exactly the resolved media of the filtered balance at the random index `choice`. A URL is never an `ipfs://` URL. |
| `Render.Centroid` | sketch.js:120-129 | The loop's accumulated sums divided by the count equal the arithmetic mean `MeanPoint` of the selected points. |
| `Render.SumPermutation` | sketch.js:123-126 | The accumulated coordinate sum is the same for any reordering of the index list. |
| `Render.MeanPointPermutation` | sketch.js:120-129 | The centroid does not depend on the order of the indices: permuted index lists give the same point. |
| `Render.MeanPointOfSame` | sketch.js:120-129 | If all selected points are one point `p`, their centroid is `p`. |
| `Render.EyePlacements` | sketch.js:72-116 | The left overlay is centred on the mean of keypoints 468-472 and the right one on the mean of 473-477. Both use the same `atan2` angle of the outer-corner line (33 to 362). Both have size 0.7 × `dist` of those corners. The left overlay is scaled `(1,-1)` and the right `(-1,-1)`. |
| `Render.FaceActions` | sketch.js:63-116 | No face gives only the "Show your face…" label. A face without 478 keypoints gives nothing. A face with iris keypoints but no image gives only the "Loading NFT…" label. No video frame is drawn here. Overlays appear iff there is a face with iris keypoints and an image, and then they are exactly the two eye placements. |
| `Render.Frame` | sketch.js:36-117 | The background comes first. A webcam error gives exactly one label: "Loading NFT…" while loading, else the webcam-unavailable message. No video gives the initialising label. The mirrored video frame is drawn iff there is no error and there is a video, and then it comes right after the background, followed by the loading label while loading. Everything after those comes from `FaceActions`. Overlays appear iff all of these hold: no error, a video, a face with 478 keypoints and a loaded image. Then exactly two are drawn, last, left then right. |
| `Session.LoadOutcome` | sketch.js:169-186 | A load yields an image iff the URL resolved and the image decoded. The image comes from that URL. Errors from earlier steps pass through, and a decode failure is `ImageLoadFailed`. |
| `Session.Session.constructor` | sketch.js:2-10 | The initial state: no faces, no image, `loading` true, no webcam error, no video, and an idle button. |
| `Session.Session.GotFaces` | sketch.js:32-34 | The faces list is replaced wholesale and nothing else changes. |
| `Session.Session.CaptureStarted` | sketch.js:206 | A video now exists and nothing else changes. |
| `Session.Session.CaptureFailed` | sketch.js:211-214 | `videoError` is set and nothing else changes. |
| `Session.Session.StartLoad` | sketch.js:139 | `loading` is set and nothing else changes. |
| `Session.Session.SettleLoad` | sketch.js:140-188 | `loading` is false on every exit path. `nftImg` is replaced only by a successfully decoded image, and a failure keeps the previous one. The button and the other flags are unchanged. |
| `Session.Session.Click` | sketch.js:233-238 | A click while `isLoading` changes nothing and starts nothing. A click while idle sets `isLoading`, disables the button, labels it "Loading..." and starts a load (`loading` true). At most one button load is outstanding. |
| `Session.Session.SettleClick` | sketch.js:239-247 | Success and failure restore the same state: label "give me other eyes", button enabled, `isLoading` false, no button load outstanding. The image and `loading` follow `SettleLoad`. |
| `Session.DoubleClick` | sketch.js:233-238 | Of two clicks in a row on an idle button, only the first starts a load. |
| `Session.FailedReloadKeepsOverlay` | sketch.js:177-186 | After the button's load fails, the next frame still draws the previous image over both eyes. |

## Left out

- Webcam capture, the HTTPS/localhost test and the `createCapture` error handlers (sketch.js:191-227) are browser I/O. Only their effect on the `video` and `videoError` variables is modelled, as the `CaptureStarted` and `CaptureFailed` events.
- FaceMesh set-up and detection (sketch.js:16-34) are a foreign library. Faces are only an input to `GotFaces`.
- The HTTP request, JSON decoding, `Math.random` and `loadImage` are inputs: a `Reply`, a `choice` index and an `imageLoads` flag. A rejected `res.json()` or a body that is not an array is the single `MalformedBody` error. Array elements without `token.metadata` (numbers, `null`, other objects) are `Balance(None)` or `Balance(Some(Token(None)))`: the filter drops them, and a body with none left gives `NoNftsWithMetadata`. Metadata fields that are neither absent nor strings are not modelled.
- Media.FetchMedia: requires the random pick to lie inside the filtered list, which `Math.floor(Math.random() * n)` guarantees.
- Render.Centroid: requires a non-empty index list. JavaScript gives NaN for an empty list, and NaN cannot be a real. `draw` only calls it with five indices.
- Render.MeanPointPermutation: order independence holds over reals. The sketch sums IEEE doubles, where reordering can change the last bits.
- `atan2`, `dist` and floating-point division are not modelled numerically. Concrete angle and distance examples depend on them and are not stated.
- Drawing primitives become draw actions: `background`, labels, the video `image` with its `translate`/`scale`, and each overlay `image` with its `translate`/`rotate`/`scale`. `push`/`pop` and `imageMode(CENTER)` are not separate actions: each action carries its own transform, and an overlay is understood as drawn centred on its placement's `center`. `drawLabel`'s box layout and `textWidth` are not modelled.
- Overlapping loads are not sequenced. The setup load and a button load may settle in any order, and each call of `SettleLoad` acts on the state as it finds it. The model does not pair each settle with its own start, and does not model Promise ordering.
- The DOM lookup in `setupButton` is not modelled: a missing button registers no handler. The button's initial label comes from the HTML page, which is not part of this model, and is taken to be the idle label.
- Logging (`console.warn`, `console.error`) and the rethrow at sketch.js:187 only reach the caller's `.catch`. That appears as the `outcome` returned by `SettleLoad`.
