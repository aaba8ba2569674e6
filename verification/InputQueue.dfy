/** The queue object itself, seen by a caller that is alone with it. How several
    threads share it is the subject of the module QueueThreads. */
module InputQueues {
  import opened DelayLine

  class InputQueue<B> {
    const delayFrames: int
    const initialFrameDelay: int
    /** A default-constructed button value. */
    const blank: B

    var latestFrameRequested: int
    var frameButtons: map<int, B>

    function State(): QueueState<B>
      reads this
    {
      QueueState(delayFrames, initialFrameDelay, latestFrameRequested, frameButtons)
    }

    constructor MakeLocalQueue(delayFrames: int, blank: B)
      ensures State() == EmptyQueue(delayFrames, delayFrames) && this.blank == blank
    {
      this.delayFrames, this.initialFrameDelay, this.blank := delayFrames, delayFrames, blank;
      latestFrameRequested, frameButtons := -1, map[];
    }

    /** A remote queue does not shift: the sender already did. */
    constructor MakeRemoteQueue(delayFrames: int, blank: B)
      ensures State() == EmptyQueue(0, delayFrames) && this.blank == blank
    {
      this.delayFrames, this.initialFrameDelay, this.blank := 0, delayFrames, blank;
      latestFrameRequested, frameButtons := -1, map[];
    }

    method PutButtons(frame: int, buttons: B) returns (accepted: bool)
      modifies this
      ensures accepted == Accepts(old(State()), frame)
      ensures State() == Insert(old(State()), frame, buttons)
    {
      if frame < 0 {
        return false;
      }
      var delayedFrame := frame + delayFrames;
      if delayedFrame < initialFrameDelay {
        return false;
      }
      if delayedFrame <= latestFrameRequested {
        return false;
      }
      if delayedFrame in frameButtons {
        return false;
      }
      frameButtons := frameButtons[delayedFrame := buttons];
      return true;
    }

    /** With no other thread to put the frame, a wait for an absent frame can only
        time out, whatever the timeout is. */
    method GetButtons(frame: int) returns (result: GetResult<B>)
      modifies this
      ensures result == Answer(old(State()), frame, blank)
      ensures State() == AfterGet(old(State()), frame)
    {
      var expectedFrame := latestFrameRequested + 1;
      if frame != expectedFrame {
        return UnexpectedFrame;
      }
      if frame < initialFrameDelay {
        latestFrameRequested := frame;
        return Success(blank);
      }
      if frame !in frameButtons {
        return Timeout;
      }
      result := Success(frameButtons[frame]);
      frameButtons := frameButtons - {frame};
      latestFrameRequested := frame;
    }

    method QueueSize() returns (n: nat)
      ensures n == |State().buttons|
    {
      n := |frameButtons|;
    }
  }
}
