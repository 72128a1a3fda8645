/** The cover drawn over the embedded view of the authentication page while
    it loads: the message it shows, and its "slow" flag, set by a one-shot
    timer unless the cover is torn down first. */
module LoadingCover {
  import opened Js

  const SlowMessage := "Still trying to reach Nylas.com..."

  /** The text shown when there is nothing to say: the six characters of the
      HTML non-breaking-space entity. The cover renders its message as text,
      which is escaped, so these characters appear literally rather than as a
      space. */
  const BlankMessage := "&nbsp;"

  /** The message of the cover: the load error when there is one, otherwise
      the slow-load notice once the cover has been up for a while, otherwise
      `BlankMessage`. The error takes priority over the slow flag. */
  function CoverMessage(error: Option<string>, slow: bool): (m: string)
    ensures m != ""
    ensures Truthy(error) ==> m == error.value
    ensures !Truthy(error) ==> (m == SlowMessage <==> slow)
    ensures !Truthy(error) && !slow ==> m == BlankMessage
  {
    if Truthy(error) then error.value
    else if slow then SlowMessage
    else BlankMessage
  }

  /** The cover's own state: the slow flag, and whether the timer that sets
      it is still pending. */
  datatype Cover = Cover(slow: bool, slowTimerPending: bool)

  /** A cover just mounted: not slow (the flag starts unset), timer pending. */
  const MountedCover := Cover(false, true)

  datatype CoverEvent = SlowTimerElapsed | CoverUnmount

  function CoverStep(c: Cover, e: CoverEvent): (r: Cover)
    ensures r.slow ==> c.slow || (e.SlowTimerElapsed? && c.slowTimerPending)
    ensures e.SlowTimerElapsed? && c.slowTimerPending ==> r.slow
    ensures !r.slowTimerPending
  {
    match e
    case SlowTimerElapsed => if c.slowTimerPending then Cover(true, false) else c.(slowTimerPending := false)
    case CoverUnmount => c.(slowTimerPending := false)
  }

  function RunCover(c: Cover, events: seq<CoverEvent>): Cover
    decreases |events|
  {
    if |events| == 0 then c else RunCover(CoverStep(c, events[0]), events[1..])
  }

  /** A cover that is not slow and has no timer pending never becomes slow. */
  lemma {:induction false} QuietCoverStaysQuiet(c: Cover, events: seq<CoverEvent>)
    requires !c.slow && !c.slowTimerPending
    ensures !RunCover(c, events).slow
    decreases |events|
  {
    if |events| > 0 {
      QuietCoverStaysQuiet(CoverStep(c, events[0]), events[1..]);
    }
  }

  /** The slow flag is set exactly when the timer fires before the cover is
      torn down: unmounting first means the cover is never slow, whatever
      comes after. */
  lemma SlowExactlyWhenTimerFiresFirst(events: seq<CoverEvent>)
    ensures RunCover(MountedCover, events).slow <==> |events| > 0 && events[0] == SlowTimerElapsed
  {
    if |events| > 0 {
      var c := CoverStep(MountedCover, events[0]);
      if events[0] == SlowTimerElapsed {
        SlowCoverStaysSlow(c, events[1..]);
      } else {
        QuietCoverStaysQuiet(c, events[1..]);
      }
    }
  }

  /** What a freshly mounted cover shows after any sequence of its events:
      a truthy error as is; without one, the slow notice exactly when the
      timer fired before the cover was torn down, and `BlankMessage` otherwise. */
  lemma {:induction false} CoverMessageOverRun(error: Option<string>, events: seq<CoverEvent>)
    ensures var m := CoverMessage(error, RunCover(MountedCover, events).slow);
            var timerFirst := |events| > 0 && events[0] == SlowTimerElapsed;
            && (Truthy(error) ==> m == error.value)
            && (!Truthy(error) ==> (m == SlowMessage <==> timerFirst))
            && (!Truthy(error) && !timerFirst ==> m == BlankMessage)
  {
    var slow := RunCover(MountedCover, events).slow;
    SlowExactlyWhenTimerFiresFirst(events);
    assert slow <==> |events| > 0 && events[0] == SlowTimerElapsed;
    var m := CoverMessage(error, slow);
    assert !Truthy(error) ==> (m == SlowMessage <==> slow);
  }

  lemma {:induction false} SlowCoverStaysSlow(c: Cover, events: seq<CoverEvent>)
    requires c.slow
    ensures RunCover(c, events).slow
    decreases |events|
  {
    if |events| > 0 {
      SlowCoverStaysSlow(CoverStep(c, events[0]), events[1..]);
    }
  }
}
