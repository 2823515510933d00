/**
 * The gesture hold/debounce logic of the sign-language detection hook.
 * Each camera frame yields a recognised gesture name or none (gesture
 * recognition itself is an input here) together with the frame's clock
 * reading; a gesture held for enough frames and enough time becomes a
 * word, and the word list never repeats a word twice in a row.
 */
module SignLanguage {
  import opened Wrappers

  /** Consecutive frames a gesture must be held before it becomes a word. */
  const HoldFrames := 30

  /** Milliseconds that must pass since the hold started (or since the last word) before a word is added. */
  const HoldMillis := 1000

  const StartFailurePrefix := "Failed to start sign language detection: "
  const GenerateFailurePrefix := "Failed to generate sentence: "

  /** One result of the hand tracker: no hand, or a hand with the name the recogniser gave it, if any. */
  datatype Frame = NoHand | Hand(gesture: Option<string>)

  /** The gesture a frame shows: there is a hand and the recogniser returned a non-empty name. */
  function Recognized(f: Frame): (r: Option<string>)
    ensures r.Some? <==> f.Hand? && f.gesture.Some? && f.gesture.value != ""
    ensures r.Some? ==> r == f.gesture
  {
    match f
    case Hand(Some(g)) => if g != "" then Some(g) else None
    case _ => None
  }

  // ---------------------------------------------------------------
  // The word list
  // ---------------------------------------------------------------

  /** No word directly follows an equal word. */
  ghost predicate NoAdjacentDuplicates(words: seq<string>)
  {
    forall i :: 0 < i < |words| ==> words[i - 1] != words[i]
  }

  /** The `setDetectedWords` updater: append `g` unless it is already the last word. */
  function AppendWord(prev: seq<string>, g: string): (r: seq<string>)
    ensures r == prev || r == prev + [g]
    ensures |r| == |prev| + 1 <==> prev == [] || prev[|prev| - 1] != g
    ensures r != [] && r[|r| - 1] == g
    ensures NoAdjacentDuplicates(prev) ==> NoAdjacentDuplicates(r)
  {
    if prev == [] || prev[|prev| - 1] != g then prev + [g] else prev
  }

  /** The word list after the updater has run for each of `gs` in turn. */
  function AppendWords(words: seq<string>, gs: seq<string>): seq<string>
    decreases |gs|
  {
    if gs == [] then words else AppendWords(AppendWord(words, gs[0]), gs[1..])
  }

  /** Feeding any gestures through the updater, one after another, never creates two equal words in a row. */
  lemma {:induction false} AppendWordsNoAdjacentDuplicates(words: seq<string>, gs: seq<string>)
    requires NoAdjacentDuplicates(words)
    ensures NoAdjacentDuplicates(AppendWords(words, gs))
    decreases |gs|
  {
    if gs != [] {
      AppendWordsNoAdjacentDuplicates(AppendWord(words, gs[0]), gs[1..]);
    }
  }


  // ---------------------------------------------------------------
  // Holding a gesture
  // ---------------------------------------------------------------

  /** The three refs of the hook: the last gesture, how many frames it has been held, and when the hold (re)started. */
  datatype Hold = Hold(last: string, count: int, since: int)

  /** Whether frame `f` at time `now`, seen in hold state `h`, adds a word. */
  predicate Emits(h: Hold, f: Frame, now: int)
  {
    && Recognized(f) == Some(h.last)
    && h.count + 1 >= HoldFrames
    && now - h.since > HoldMillis
  }

  /** The hold state after frame `f` at time `now`. */
  function Advance(h: Hold, f: Frame, now: int): Hold
  {
    match Recognized(f)
    case None => Hold("", 0, h.since)
    case Some(g) =>
      if g != h.last then Hold(g, 1, now)
      else if Emits(h, f, now) then Hold(g, 0, now)
      else Hold(g, h.count + 1, h.since)
  }

  /** A run of frames from hold state `h`: the final hold state and the gestures that became words, in order. */
  function Run(h: Hold, frames: seq<(Frame, int)>): (Hold, seq<string>)
    decreases |frames|
  {
    if frames == [] then (h, [])
    else
      var f := frames[0].0;
      var now := frames[0].1;
      var rest := Run(Advance(h, f, now), frames[1..]);
      (rest.0, (if Emits(h, f, now) then [h.last] else []) + rest.1)
  }

  /** Every frame of the run shows gesture `g`. */
  ghost predicate AllShow(frames: seq<(Frame, int)>, g: string)
  {
    forall k :: 0 <= k < |frames| ==> Recognized(frames[k].0) == Some(g)
  }

  /** While a hold of `g` is still short of `HoldFrames`, further frames of `g` only count up. */
  lemma {:induction false} HoldCountsUp(h: Hold, g: string, frames: seq<(Frame, int)>)
    requires h.last == g && h.count >= 0 && h.count + |frames| < HoldFrames
    requires AllShow(frames, g)
    ensures Run(h, frames) == (Hold(g, h.count + |frames|, h.since), [])
    decreases |frames|
  {
    if frames != [] {
      var f := frames[0].0;
      var now := frames[0].1;
      assert Recognized(f) == Some(g);
      assert AllShow(frames[1..], g) by {
        forall k | 0 <= k < |frames[1..]| ensures Recognized(frames[1..][k].0) == Some(g) {
          assert frames[1..][k] == frames[k + 1];
        }
      }
      var h1 := Hold(g, h.count + 1, h.since);
      assert !Emits(h, f, now);
      assert Advance(h, f, now) == h1;
      HoldCountsUp(h1, g, frames[1..]);
      var rest := Run(h1, frames[1..]);
      assert rest == (Hold(g, h.count + |frames|, h.since), []);
      assert Run(h, frames) == (rest.0, [] + rest.1);
      assert [] + rest.1 == rest.1;
    } else {
      assert Run(h, frames) == (h, []);
    }
  }

  /**
   * After a change of gesture, or right after a word was added (count 0), fewer than
   * `HoldFrames` frames of the same gesture add no word: the hold count equals the frames seen.
   */
  lemma NoWordBeforeHoldFrames(h: Hold, g: string, frames: seq<(Frame, int)>)
    requires h.last != g || h.count == 0
    requires 0 < |frames| < HoldFrames
    requires AllShow(frames, g)
    ensures Run(h, frames).1 == []
    ensures Run(h, frames).0.last == g && Run(h, frames).0.count == |frames|
  {
    var f := frames[0].0;
    var now := frames[0].1;
    assert Recognized(f) == Some(g);
    var h1 := Advance(h, f, now);
    assert !Emits(h, f, now);
    assert h1.last == g && h1.count == 1;
    assert AllShow(frames[1..], g) by {
      forall k | 0 <= k < |frames[1..]| ensures Recognized(frames[1..][k].0) == Some(g) {
        assert frames[1..][k] == frames[k + 1];
      }
    }
    HoldCountsUp(h1, g, frames[1..]);
    assert Run(h, frames) == (Run(h1, frames[1..]).0, [] + Run(h1, frames[1..]).1);
  }

  /** The reply of the sentence-generation service. */
  datatype Reply = Generated(sentence: string) | Failed(reason: string)

  class Detector {
    var detectedWords: seq<string>
    var currentGesture: string
    var isDetecting: bool
    var error: Option<string>
    var isGenerating: bool
    var lastGesture: string
    var gestureCount: int
    var lastGestureTime: int

    ghost predicate Valid()
      reads this
    {
      && NoAdjacentDuplicates(detectedWords)
      && gestureCount >= 0
      && (lastGesture == "" ==> gestureCount == 0)
    }

    /** The hold refs as one value. */
    function HoldState(): Hold
      reads this
    {
      Hold(lastGesture, gestureCount, lastGestureTime)
    }

    /** The hook's initial state. */
    constructor ()
      ensures Valid()
      ensures detectedWords == [] && currentGesture == "" && !isDetecting && error == None && !isGenerating
      ensures HoldState() == Hold("", 0, 0)
    {
      detectedWords := [];
      currentGesture := "";
      isDetecting := false;
      error := None;
      isGenerating := false;
      lastGesture := "";
      gestureCount := 0;
      lastGestureTime := 0;
    }

    /**
     * `startDetection`: nothing happens without a video element or while detection runs; otherwise
     * detection starts, or, when setting up the tracker fails with `failure`, an error is recorded.
     */
    method StartDetection(hasVideo: bool, failure: Option<string>)
      requires Valid()
      modifies this
      ensures Valid()
      ensures !hasVideo || old(isDetecting) ==> unchanged(this)
      ensures hasVideo && !old(isDetecting) ==>
        && isDetecting == failure.None?
        && error == (if failure.Some? then Some(StartFailurePrefix + failure.value) else None)
        && detectedWords == old(detectedWords) && currentGesture == old(currentGesture)
        && HoldState() == old(HoldState()) && isGenerating == old(isGenerating)
    {
      if !hasVideo || isDetecting {
        return;
      }
      error := None;
      isDetecting := true;
      if failure.Some? {
        error := Some(StartFailurePrefix + failure.value);
        isDetecting := false;
      }
    }

    /** The `onResults` callback for frame `f` at time `now`. */
    method OnResults(f: Frame, now: int)
      requires Valid()
      modifies this
      ensures Valid()
      ensures currentGesture == match Recognized(f) case Some(g) => g case None => ""
      ensures HoldState() == Advance(old(HoldState()), f, now)
      ensures detectedWords ==
        if Emits(old(HoldState()), f, now) then AppendWord(old(detectedWords), old(lastGesture)) else old(detectedWords)
      // The individual cases, spelled out:
      ensures Recognized(f).None? ==>
        lastGesture == "" && gestureCount == 0 && lastGestureTime == old(lastGestureTime)
        && detectedWords == old(detectedWords)
      ensures Recognized(f).Some? && Recognized(f).value != old(lastGesture) ==>
        lastGesture == Recognized(f).value && gestureCount == 1 && lastGestureTime == now
        && detectedWords == old(detectedWords)
      ensures Recognized(f) == Some(old(lastGesture)) ==>
        if old(gestureCount) + 1 >= HoldFrames && now - old(lastGestureTime) > HoldMillis then
          gestureCount == 0 && lastGestureTime == now
          && detectedWords == AppendWord(old(detectedWords), old(lastGesture))
        else
          gestureCount == old(gestureCount) + 1 && lastGestureTime == old(lastGestureTime)
          && detectedWords == old(detectedWords)
      ensures isDetecting == old(isDetecting) && error == old(error) && isGenerating == old(isGenerating)
    {
      var gestureName := Recognized(f);
      if gestureName.Some? {
        var g := gestureName.value;
        currentGesture := g;
        if g == lastGesture {
          gestureCount := gestureCount + 1;
          if gestureCount >= HoldFrames && now - lastGestureTime > HoldMillis {
            detectedWords := AppendWord(detectedWords, g);
            gestureCount := 0;
            lastGestureTime := now;
          }
        } else {
          lastGesture := g;
          gestureCount := 1;
          lastGestureTime := now;
        }
      } else {
        currentGesture := "";
        lastGesture := "";
        gestureCount := 0;
      }
    }

    /** `stopDetection`: detection stops and the hold resets; the words stay. */
    method StopDetection()
      requires Valid()
      modifies this
      ensures Valid()
      ensures !isDetecting && currentGesture == "" && lastGesture == "" && gestureCount == 0
      ensures detectedWords == old(detectedWords) && lastGestureTime == old(lastGestureTime)
      ensures error == old(error) && isGenerating == old(isGenerating)
    {
      isDetecting := false;
      currentGesture := "";
      lastGesture := "";
      gestureCount := 0;
    }

    /** `clearWords`: the word list becomes empty and nothing else changes. */
    method ClearWords()
      requires Valid()
      modifies this
      ensures Valid()
      ensures detectedWords == []
      ensures currentGesture == old(currentGesture) && isDetecting == old(isDetecting) && error == old(error)
      ensures isGenerating == old(isGenerating) && HoldState() == old(HoldState())
    {
      detectedWords := [];
    }

    /**
     * `generateSentence`: with no words, returns no sentence and asks the service nothing
     * (`request` is `None`); otherwise asks the service for the current words, whose answer
     * is `reply`, and reports a failure in `error`.
     */
    method GenerateSentence(reply: Reply) returns (sentence: Option<string>, request: Option<seq<string>>)
      requires Valid()
      modifies this
      ensures Valid()
      ensures old(detectedWords) == [] ==> sentence == None && request == None && unchanged(this)
      ensures old(detectedWords) != [] ==>
        && request == Some(old(detectedWords)) && !isGenerating
        && sentence == (if reply.Generated? then Some(reply.sentence) else None)
        && error == (if reply.Failed? then Some(GenerateFailurePrefix + reply.reason) else old(error))
      ensures detectedWords == old(detectedWords) && currentGesture == old(currentGesture)
      ensures isDetecting == old(isDetecting) && HoldState() == old(HoldState())
    {
      if |detectedWords| == 0 {
        return None, None;
      }
      isGenerating := true;
      request := Some(detectedWords);
      match reply {
        case Generated(s) =>
          sentence := Some(s);
        case Failed(reason) =>
          error := Some(GenerateFailurePrefix + reason);
          sentence := None;
      }
      isGenerating := false;
    }
  }
}
