/**
 * Media-URL resolution of `loadRandomNFT`: from a tzkt token-balance reply
 * to the URL of the still image that will be loaded as the eye overlay.
 * The network fetch, the JSON decoding and `Math.random` are inputs here.
 */
module Media {
  import opened Wrappers

  const IpfsScheme := "ipfs://"
  const IpfsGateway := "https://ipfs.io/ipfs/"

  /** Why a load gives up; each one is thrown by the sketch and caught at the boundary. */
  datatype LoadError =
    | NetworkFailure          // `fetch` itself rejects
    | HttpStatus(status: int) // `!res.ok`
    | MalformedBody           // `res.json()` rejects, or the body is not an array
    | NoNftsWithMetadata
    | NoMediaUrl
    | ImageLoadFailed         // the error callback of `loadImage`

  /** One entry of `metadata.formats`; a missing field is `None`. */
  datatype Format = Format(uri: Option<string>, mimeType: Option<string>)

  /** Token metadata; a missing `formats` list is the empty list (`?.` reads both as undefined). */
  datatype Metadata = Metadata(
    artifactUri: Option<string>,
    formats: seq<Format>,
    displayUri: Option<string>,
    thumbnailUri: Option<string>)

  datatype Token = Token(metadata: Option<Metadata>)

  /** One element of the balances array: `d?.token?.metadata`. */
  datatype Balance = Balance(token: Option<Token>)

  /** What `fetch` delivers: a rejection, or a status and the decoded body. */
  datatype Reply =
    | Unreachable
    | Reply(ok: bool, status: int, body: Option<seq<Balance>>)

  // ---------------------------------------------------------------- strings

  /** JavaScript truthiness of a possibly absent string: absent and "" are falsy. */
  predicate Truthy(v: Option<string>) {
    v.Some? && v.value != ""
  }

  /** JavaScript `a || b` on possibly absent strings. */
  function Or(a: Option<string>, b: Option<string>): Option<string> {
    if Truthy(a) then a else b
  }

  predicate MatchAt(s: string, pat: string, i: nat) {
    i + |pat| <= |s| && s[i..i + |pat|] == pat
  }

  /** The first position at or after `from` where `pat` occurs: the search `replace` does from position 0. */
  function IndexOfFrom(s: string, pat: string, from: nat): (r: Option<nat>)
    ensures r.Some? ==> from <= r.value && MatchAt(s, pat, r.value)
    ensures r.Some? ==> forall j :: from <= j < r.value ==> !MatchAt(s, pat, j)
    ensures r.None? ==> forall j :: from <= j ==> !MatchAt(s, pat, j)
    decreases |s| - from
  {
    if from + |pat| > |s| then None
    else if s[from..from + |pat|] == pat then Some(from)
    else IndexOfFrom(s, pat, from + 1)
  }

  /** `s.replace(pat, rep)` with a string pattern: only the first occurrence is replaced. */
  function Replace(s: string, pat: string, rep: string): string {
    match IndexOfFrom(s, pat, 0)
    case None => s
    case Some(i) => s[..i] + rep + s[i + |pat|..]
  }

  /** Lines 156-157 (and 163-164): an `ipfs://` URL is sent through the public gateway. */
  function RewriteIpfs(url: string): (r: string)
    ensures IpfsScheme <= url ==> r == IpfsGateway + url[|IpfsScheme|..]
    ensures !(IpfsScheme <= url) ==> r == url
    ensures !(IpfsScheme <= r)
    ensures url != "" ==> r != ""
  {
    if IpfsScheme <= url then
      assert MatchAt(url, IpfsScheme, 0);
      var r := Replace(url, IpfsScheme, IpfsGateway);
      assert r == IpfsGateway + url[|IpfsScheme|..];
      assert r[0] == 'h';
      r
    else
      url
  }

  function LowerAscii(c: char): char {
    if 'A' <= c <= 'Z' then (c as int - 'A' as int + 'a' as int) as char else c
  }

  /** The regular expression `/\.(mp4|webm)$/i` for a lower-case `suffix`. */
  predicate EndsWithIgnoringCase(s: string, suffix: string) {
    |suffix| <= |s| &&
    forall k :: 0 <= k < |suffix| ==> LowerAscii(s[|s| - |suffix| + k]) == suffix[k]
  }

  // ---------------------------------------------------------------- metadata

  function FormatUri(md: Metadata): Option<string> {
    if |md.formats| > 0 then md.formats[0].uri else None
  }

  /** `md?.formats?.[0]?.mimeType || ""` */
  function MimeType(md: Metadata): string {
    if |md.formats| > 0 && Truthy(md.formats[0].mimeType) then md.formats[0].mimeType.value else ""
  }

  /** The media sources of a token, highest priority first. */
  function Candidates(md: Metadata): seq<Option<string>> {
    [md.artifactUri, FormatUri(md), md.displayUri, md.thumbnailUri]
  }

  /** Reference definition of a priority chain: the first truthy value in `vs`. */
  function FirstTruthy(vs: seq<Option<string>>): (r: Option<string>)
    ensures r.Some? <==> exists i :: 0 <= i < |vs| && Truthy(vs[i])
    ensures r.Some? ==> r.value != ""
    ensures r.Some? ==> exists i :: 0 <= i < |vs| && vs[i] == r && forall j :: 0 <= j < i ==> !Truthy(vs[j])
  {
    if |vs| == 0 then None
    else if Truthy(vs[0]) then vs[0]
    else
      var r := FirstTruthy(vs[1..]);
      assert forall i :: 1 <= i < |vs| ==> vs[i] == vs[1..][i - 1];
      r
  }

  /** The `||` chain over four values picks what the reference priority chain picks. */
  lemma {:induction false} OrChainIsFirstTruthy(a: Option<string>, b: Option<string>, c: Option<string>, d: Option<string>)
    ensures Truthy(Or(Or(Or(a, b), c), d)) ==> FirstTruthy([a, b, c, d]) == Or(Or(Or(a, b), c), d)
    ensures !Truthy(Or(Or(Or(a, b), c), d)) ==> FirstTruthy([a, b, c, d]).None?
  {
    var vs := [a, b, c, d];
    assert vs[1..] == [b, c, d];
    assert vs[1..][1..] == [c, d];
    assert vs[1..][1..][1..] == [d];
    assert vs[1..][1..][1..][1..] == [];
    if !Truthy(a) {
      assert FirstTruthy(vs) == FirstTruthy([b, c, d]);
      if !Truthy(b) {
        assert FirstTruthy([b, c, d]) == FirstTruthy([c, d]);
        if !Truthy(c) {
          assert FirstTruthy([c, d]) == FirstTruthy([d]);
          if !Truthy(d) {
            assert FirstTruthy([d]) == FirstTruthy([]);
          }
        }
      }
    }
  }

  /** Lines 150-155: the `||` chain over the four sources, or "No media URL". */
  function PrimaryMedia(md: Metadata): (r: Result<string, LoadError>)
    ensures r.Err? <==> !Truthy(md.artifactUri) && !Truthy(FormatUri(md)) && !Truthy(md.displayUri) && !Truthy(md.thumbnailUri)
    ensures r.Err? ==> r.error == NoMediaUrl
    ensures r.Ok? ==> Some(r.value) == FirstTruthy(Candidates(md))
  {
    var media := Or(Or(Or(md.artifactUri, FormatUri(md)), md.displayUri), md.thumbnailUri);
    OrChainIsFirstTruthy(md.artifactUri, FormatUri(md), md.displayUri, md.thumbnailUri);
    if !Truthy(media) then Err(NoMediaUrl) else Ok(media.value)
  }

  /** Line 160: the media looks like a video. */
  predicate LooksVideo(mime: string, media: string) {
    "video" <= mime || EndsWithIgnoringCase(media, ".mp4") || EndsWithIgnoringCase(media, ".webm")
  }

  /** The still-image fallback of lines 162-164, already rewritten. */
  function StillFallback(md: Metadata): Option<string> {
    var fb := Or(md.displayUri, md.thumbnailUri);
    if fb.Some? then Some(RewriteIpfs(fb.value)) else fb
  }

  /** Lines 150-166: the URL that is handed to `loadImage`. */
  function ResolveMedia(md: Metadata): (r: Result<string, LoadError>)
    ensures r.Err? <==> FirstTruthy(Candidates(md)).None?
    ensures r.Err? ==> r.error == NoMediaUrl
    ensures r.Ok? ==> r.value != "" && !(IpfsScheme <= r.value)
    ensures r.Ok? ==>
      var media := RewriteIpfs(FirstTruthy(Candidates(md)).value);
      if !LooksVideo(MimeType(md), media) then r.value == media
      else if Truthy(md.displayUri) then r.value == RewriteIpfs(md.displayUri.value)
      else if Truthy(md.thumbnailUri) then r.value == RewriteIpfs(md.thumbnailUri.value)
      else r.value == media
  {
    match PrimaryMedia(md)
    case Err(e) => Err(e)
    case Ok(primary) =>
      var media := RewriteIpfs(primary);
      var looksVideo := LooksVideo(MimeType(md), media);
      if looksVideo then
        var fb := StillFallback(md);
        if Truthy(fb) then Ok(fb.value) else Ok(media)
      else
        Ok(media)
  }

  // ---------------------------------------------------------------- selection

  predicate HasMetadata(d: Balance) {
    d.token.Some? && d.token.value.metadata.Some?
  }

  /** Line 145: `data.filter((d) => d?.token?.metadata)`. */
  function WithMetadata(data: seq<Balance>): (r: seq<Balance>)
    ensures |r| <= |data|
    ensures forall k :: 0 <= k < |r| ==> HasMetadata(r[k]) && r[k] in data
    ensures forall d :: d in data && HasMetadata(d) ==> d in r
    ensures forall d :: multiset(r)[d] == if HasMetadata(d) then multiset(data)[d] else 0
  {
    if |data| == 0 then []
    else
      var rest := WithMetadata(data[1..]);
      assert forall d :: d in data && d != data[0] ==> d in data[1..];
      assert data == [data[0]] + data[1..];
      assert multiset(data) == multiset{data[0]} + multiset(data[1..]);
      if HasMetadata(data[0]) then [data[0]] + rest else rest
  }

  /** The filter keeps order: filtering a concatenation concatenates the filtered parts. */
  lemma {:induction false} WithMetadataAppend(a: seq<Balance>, b: seq<Balance>)
    ensures WithMetadata(a + b) == WithMetadata(a) + WithMetadata(b)
    decreases |a|
  {
    if |a| > 0 {
      assert (a + b)[1..] == a[1..] + b;
      WithMetadataAppend(a[1..], b);
    } else {
      assert a + b == b;
    }
  }

  /** The random pick `Math.floor(Math.random() * withMeta.length)` lies in range. */
  predicate ValidChoice(reply: Reply, choice: nat) {
    reply.Reply? && reply.body.Some? && |WithMetadata(reply.body.value)| > 0 ==>
      choice < |WithMetadata(reply.body.value)|
  }

  /** Lines 141-166: from the tzkt reply and the random pick to the media URL, or the error thrown. */
  function FetchMedia(reply: Reply, choice: nat): (r: Result<string, LoadError>)
    requires ValidChoice(reply, choice)
    ensures reply.Unreachable? ==> r == Err(NetworkFailure)
    ensures reply.Reply? && !reply.ok ==> r == Err(HttpStatus(reply.status))
    ensures reply.Reply? && reply.ok && reply.body.None? ==> r == Err(MalformedBody)
    ensures r.Ok? ==> reply.Reply? && reply.ok && reply.body.Some?
    ensures r.Ok? ==> r.value != "" && !(IpfsScheme <= r.value)
    ensures reply.Reply? && reply.ok && reply.body.Some? ==>
      var withMeta := WithMetadata(reply.body.value);
      if |withMeta| == 0 then r == Err(NoNftsWithMetadata)
      else r == ResolveMedia(withMeta[choice].token.value.metadata.value)
    ensures r.Ok? ==>
      exists d :: d in reply.body.value && HasMetadata(d) && r == ResolveMedia(d.token.value.metadata.value)
  {
    match reply
    case Unreachable => Err(NetworkFailure)
    case Reply(ok, status, body) =>
      if !ok then Err(HttpStatus(status))
      else if body.None? then Err(MalformedBody)
      else
        var withMeta := WithMetadata(body.value);
        if |withMeta| == 0 then Err(NoNftsWithMetadata)
        else
          var pick := withMeta[choice];
          ResolveMedia(pick.token.value.metadata.value)
  }

  /**
   * Spec-level promise of the video fallback: a token whose declared MIME type is a
   * video never ends on its own media URL when a display or thumbnail URI exists.
   */
  lemma VideoMimeUsesStill(md: Metadata)
    requires "video" <= MimeType(md)
    requires Truthy(md.displayUri) || Truthy(md.thumbnailUri)
    ensures ResolveMedia(md).Ok?
    ensures ResolveMedia(md).value == RewriteIpfs(Or(md.displayUri, md.thumbnailUri).value)
  {
  }
}
