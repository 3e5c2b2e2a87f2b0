/**
 * The sketch's module-level session state and the events that change it: detection
 * results, webcam start/failure, NFT loads started and settled, and the button.
 */
module Session {
  import opened Wrappers
  import Media
  import Render

  const IdleLabel := "give me other eyes"
  const BusyLabel := "Loading..."

  /**
   * Lines 169-186: how a load ends. The image is the one decoded from the resolved
   * URL; any error thrown before `loadImage` is passed on unchanged.
   */
  function LoadOutcome(fetched: Result<string, Media.LoadError>, imageLoads: bool): (r: Result<Render.Image, Media.LoadError>)
    ensures r.Ok? <==> fetched.Ok? && imageLoads
    ensures r.Ok? ==> r.value.src == fetched.value
    ensures fetched.Err? ==> r.error == fetched.error
    ensures fetched.Ok? && !imageLoads ==> r.error == Media.ImageLoadFailed
  {
    match fetched
    case Err(e) => Err(e)
    case Ok(media) => if imageLoads then Ok(Render.Image(media)) else Err(Media.ImageLoadFailed)
  }

  class Session {
    var faces: seq<Render.Face>
    var nftImg: Option<Render.Image>
    var loading: bool
    var videoError: bool
    var hasVideo: bool
    /** The button's re-entrancy guard. */
    var isLoading: bool
    var buttonLabel: string
    var buttonDisabled: bool
    /** Loads started by the button that have not settled yet. */
    ghost var buttonLoads: nat

    /** The button is busy exactly while its one load is outstanding, and shows it. */
    ghost predicate Valid()
      reads this
    {
      && buttonLoads == (if isLoading then 1 else 0)
      && buttonDisabled == isLoading
      && buttonLabel == (if isLoading then BusyLabel else IdleLabel)
    }

    /** The flags one frame of `draw` reads. */
    function View(): Render.FrameInputs
      reads this
    {
      Render.FrameInputs(videoError, loading, hasVideo, faces, nftImg)
    }

    /** Lines 2-10: the initial values, with the button idle as the page shows it. */
    constructor ()
      ensures Valid()
      ensures faces == [] && nftImg == None && loading && !videoError && !hasVideo
      ensures !isLoading && buttonLoads == 0
    {
      faces := [];
      nftImg := None;
      loading := true;
      videoError := false;
      hasVideo := false;
      isLoading := false;
      buttonLabel := IdleLabel;
      buttonDisabled := false;
      buttonLoads := 0;
    }

    /** Lines 32-34: a detection callback replaces the faces wholesale. */
    method GotFaces(results: seq<Render.Face>)
      modifies this
      ensures faces == results
      ensures nftImg == old(nftImg) && loading == old(loading)
      ensures videoError == old(videoError) && hasVideo == old(hasVideo)
      ensures isLoading == old(isLoading) && buttonLabel == old(buttonLabel)
      ensures buttonDisabled == old(buttonDisabled) && buttonLoads == old(buttonLoads)
    {
      faces := results;
    }

    /** Line 206: `createCapture` returned a video element. */
    method CaptureStarted()
      modifies this
      ensures hasVideo
      ensures faces == old(faces) && nftImg == old(nftImg) && loading == old(loading)
      ensures videoError == old(videoError)
      ensures isLoading == old(isLoading) && buttonLabel == old(buttonLabel)
      ensures buttonDisabled == old(buttonDisabled) && buttonLoads == old(buttonLoads)
    {
      hasVideo := true;
    }

    /** Lines 199, 213, 222: the webcam cannot be used; the flag is never cleared. */
    method CaptureFailed()
      modifies this
      ensures videoError
      ensures faces == old(faces) && nftImg == old(nftImg) && loading == old(loading)
      ensures hasVideo == old(hasVideo)
      ensures isLoading == old(isLoading) && buttonLabel == old(buttonLabel)
      ensures buttonDisabled == old(buttonDisabled) && buttonLoads == old(buttonLoads)
    {
      videoError := true;
    }

    /** Line 139: the synchronous start of `loadRandomNFT`. */
    method StartLoad()
      modifies this
      ensures loading
      ensures faces == old(faces) && nftImg == old(nftImg)
      ensures videoError == old(videoError) && hasVideo == old(hasVideo)
      ensures isLoading == old(isLoading) && buttonLabel == old(buttonLabel)
      ensures buttonDisabled == old(buttonDisabled) && buttonLoads == old(buttonLoads)
    {
      loading := true;
    }

    /**
     * Lines 140-188: a load settles. `reply` is what `fetch` delivered, `choice` the random
     * pick, `imageLoads` whether `loadImage` succeeded. `loading` is cleared on every path;
     * the image is replaced only by a successfully decoded one.
     */
    method SettleLoad(reply: Media.Reply, choice: nat, imageLoads: bool) returns (outcome: Result<Render.Image, Media.LoadError>)
      requires Media.ValidChoice(reply, choice)
      modifies this
      ensures outcome == LoadOutcome(Media.FetchMedia(reply, choice), imageLoads)
      ensures !loading
      ensures nftImg == if outcome.Ok? then Some(outcome.value) else old(nftImg)
      ensures faces == old(faces) && videoError == old(videoError) && hasVideo == old(hasVideo)
      ensures isLoading == old(isLoading) && buttonLabel == old(buttonLabel)
      ensures buttonDisabled == old(buttonDisabled) && buttonLoads == old(buttonLoads)
    {
      var fetched := Media.FetchMedia(reply, choice);
      match fetched {
        case Err(e) =>
          loading := false;
          outcome := Err(e);
        case Ok(media) =>
          if imageLoads {
            nftImg := Some(Render.Image(media));
            loading := false;
            outcome := Ok(Render.Image(media));
          } else {
            loading := false;
            outcome := Err(Media.ImageLoadFailed);
          }
      }
    }

    /**
     * Lines 233-238 (and 139): a click. While busy it does nothing; otherwise the button
     * turns busy and a load starts.
     */
    method Click() returns (started: bool)
      requires Valid()
      modifies this
      ensures Valid()
      ensures started == !old(isLoading)
      ensures !started ==>
        && loading == old(loading) && isLoading == old(isLoading)
        && buttonLabel == old(buttonLabel) && buttonDisabled == old(buttonDisabled)
        && buttonLoads == old(buttonLoads)
      ensures started ==> isLoading && buttonDisabled && buttonLabel == BusyLabel && loading
      ensures buttonLoads <= 1
      ensures faces == old(faces) && nftImg == old(nftImg)
      ensures videoError == old(videoError) && hasVideo == old(hasVideo)
    {
      if isLoading {
        return false;
      }
      isLoading := true;
      buttonLabel := BusyLabel;
      buttonDisabled := true;
      buttonLoads := buttonLoads + 1;
      StartLoad();
      started := true;
    }

    /**
     * Lines 239-247: the button's load settles. The `then` and the `catch` branch
     * restore the same idle button whatever the outcome.
     */
    method SettleClick(reply: Media.Reply, choice: nat, imageLoads: bool) returns (outcome: Result<Render.Image, Media.LoadError>)
      requires Valid() && isLoading
      requires Media.ValidChoice(reply, choice)
      modifies this
      ensures Valid()
      ensures !isLoading && !buttonDisabled && buttonLabel == IdleLabel && buttonLoads == 0
      ensures outcome == LoadOutcome(Media.FetchMedia(reply, choice), imageLoads)
      ensures !loading
      ensures nftImg == if outcome.Ok? then Some(outcome.value) else old(nftImg)
      ensures faces == old(faces) && videoError == old(videoError) && hasVideo == old(hasVideo)
    {
      outcome := SettleLoad(reply, choice, imageLoads);
      if outcome.Ok? {
        buttonLabel := IdleLabel;
        buttonDisabled := false;
        isLoading := false;
      } else {
        buttonLabel := IdleLabel;
        buttonDisabled := false;
        isLoading := false;
      }
      buttonLoads := buttonLoads - 1;
    }
  }

  /** Rapid clicks: only the first of two clicks in a row starts a load. */
  method DoubleClick(s: Session) returns (first: bool, second: bool)
    requires s.Valid() && !s.isLoading
    modifies s
    ensures s.Valid()
    ensures first && !second
    ensures s.isLoading && s.buttonLoads == 1
  {
    first := s.Click();
    second := s.Click();
  }

  /**
   * A failed reload leaves the previous image on screen: with a face in view and an
   * image already shown, the next frame still draws it over both eyes.
   */
  method FailedReloadKeepsOverlay(s: Session, reply: Media.Reply, choice: nat, num: Render.Numerics)
      returns (frame: seq<Render.DrawAction>)
    requires s.Valid() && s.isLoading && Media.ValidChoice(reply, choice)
    requires Render.OverlaysDue(s.View())
    modifies s
    ensures Render.OverlaysDue(s.View()) && s.nftImg == old(s.nftImg) && !s.loading
    ensures |frame| >= 4
    ensures frame[|frame| - 2] == Render.Overlay(old(s.nftImg).value, Render.EyePlacements(old(s.faces)[0].keypoints, num).0)
    ensures frame[|frame| - 1] == Render.Overlay(old(s.nftImg).value, Render.EyePlacements(old(s.faces)[0].keypoints, num).1)
  {
    var _ := s.SettleClick(reply, choice, false);
    frame := Render.Frame(s.View(), num);
  }
}
