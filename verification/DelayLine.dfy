/** The input queue as a value, and what it means: a first-write-wins delay line.

    `QueueState` holds the queue's two constants and its two mutable fields.
    The functions below say what one locked section of the queue does to them;
    the class `InputQueue` and the thread model are both proved against these. */
module DelayLine {

  datatype QueueState<B> = QueueState(delay: int, initial: int, latest: int, buttons: map<int, B>)

  datatype GetResult<B> = Success(buttons: B) | UnexpectedFrame | Timeout

  function EmptyQueue<B>(delay: int, initial: int): QueueState<B> {
    QueueState(delay, initial, -1, map[])
  }

  /** The puts that the queue does not refuse. */
  predicate Accepts<B>(q: QueueState<B>, frame: int) {
    && 0 <= frame
    && q.initial <= frame + q.delay
    && q.latest < frame + q.delay
    && frame + q.delay !in q.buttons
  }

  function Insert<B>(q: QueueState<B>, frame: int, b: B): QueueState<B> {
    if Accepts(q, frame) then q.(buttons := q.buttons[frame + q.delay := b]) else q
  }

  /** What a get answers when nothing can arrive any more while it waits. */
  function Answer<B>(q: QueueState<B>, frame: int, blank: B): GetResult<B> {
    if frame != q.latest + 1 then UnexpectedFrame
    else if frame < q.initial then Success(blank)
    else if frame in q.buttons then Success(q.buttons[frame])
    else Timeout
  }

  predicate Answers<B>(q: QueueState<B>, frame: int) {
    frame == q.latest + 1 && (frame < q.initial || frame in q.buttons)
  }

  function AfterGet<B>(q: QueueState<B>, frame: int): QueueState<B> {
    if !Answers(q, frame) then q
    else if frame < q.initial then q.(latest := frame)
    else q.(latest := frame, buttons := q.buttons - {frame})
  }

  /** Pending frames have neither been read nor fall into the initial delay. */
  ghost predicate QueueInv<B>(q: QueueState<B>) {
    && -1 <= q.latest
    && forall g <- q.buttons :: q.latest < g && q.initial <= g
  }

  /** A get that can be answered may as well happen before a put as after it. */
  lemma GetCommutesWithPut<B>(q: QueueState<B>, n: int, frame: int, b: B)
    requires QueueInv(q) && Answers(q, n)
    ensures Accepts(AfterGet(q, n), frame) <==> Accepts(q, frame)
    ensures Answers(Insert(q, frame, b), n)
    ensures forall blank :: Answer(Insert(q, frame, b), n, blank) == Answer(q, n, blank)
    ensures AfterGet(Insert(q, frame, b), n) == Insert(AfterGet(q, n), frame, b)
  {
    if Accepts(q, frame) && q.initial <= n {
      assert q.buttons[frame + q.delay := b] - {n} == (q.buttons - {n})[frame + q.delay := b];
    }
  }

  // ---------------------------------------------------------------------------
  // Runs: any interleaving of puts and gets, where a failed operation stutters.

  datatype Op<B> = PutOp(frame: int, buttons: B) | GetOp(frame: int)

  function Step<B>(q: QueueState<B>, op: Op<B>): QueueState<B> {
    match op
    case PutOp(frame, b) => Insert(q, frame, b)
    case GetOp(frame) => AfterGet(q, frame)
  }

  function After<B>(q: QueueState<B>, ops: seq<Op<B>>): QueueState<B> {
    if ops == [] then q else Step(After(q, ops[..|ops| - 1]), ops[|ops| - 1])
  }

  /** The buttons handed out by the successful gets of a run, in order. */
  function Delivered<B>(q: QueueState<B>, ops: seq<Op<B>>, blank: B): seq<B> {
    if ops == [] then []
    else
      var before := Delivered(q, ops[..|ops| - 1], blank);
      var last := ops[|ops| - 1];
      if last.PutOp? then before
      else match Answer(After(q, ops[..|ops| - 1]), last.frame, blank)
        case Success(b) => before + [b]
        case _ => before
  }

  // ---------------------------------------------------------------------------
  // The reference: a delay line that remembers the first put of every frame and
  // knows nothing about gets.

  /** The frames that may be put at all; late and duplicate puts do not matter here. */
  predicate Admissible(delay: int, initial: int, frame: int) {
    0 <= frame && initial <= frame + delay && 0 <= frame + delay
  }

  /** From each delayed frame to the buttons of the first put for it. */
  function Recorded<B>(delay: int, initial: int, ops: seq<Op<B>>): map<int, B> {
    if ops == [] then map[]
    else
      var before := Recorded(delay, initial, ops[..|ops| - 1]);
      match ops[|ops| - 1]
      case GetOp(_) => before
      case PutOp(frame, b) =>
        if Admissible(delay, initial, frame) && frame + delay !in before
        then before[frame + delay := b] else before
  }

  /** The line hands out the blank during the initial delay, then what was recorded. */
  ghost predicate LineOutput<B>(out: seq<B>, recorded: map<int, B>, initial: int, blank: B) {
    forall k | 0 <= k < |out| ::
      if k < initial then out[k] == blank else k in recorded && out[k] == recorded[k]
  }

  ghost function Pending<B>(recorded: map<int, B>, latest: int): map<int, B> {
    map g | g in recorded && latest < g :: recorded[g]
  }

  /** The queue refines the delay line: over every run, the k-th successful get is
      for frame k and hands out the blank or the first put of frame k - delay, and
      what is pending is exactly what was recorded and not yet read. */
  lemma {:induction false} QueueRefinesDelayLine<B>(delay: int, initial: int, ops: seq<Op<B>>, blank: B)
    ensures var q := After(EmptyQueue(delay, initial), ops);
            var recorded := Recorded(delay, initial, ops);
            var out := Delivered(EmptyQueue(delay, initial), ops, blank);
            && q.delay == delay && q.initial == initial && q.latest == |out| - 1
            && LineOutput(out, recorded, initial, blank)
            && q.buttons == Pending(recorded, q.latest)
            && forall g <- recorded :: 0 <= g && initial <= g
  {
    if ops != [] {
      QueueRefinesDelayLine(delay, initial, ops[..|ops| - 1], blank);
    }
  }

  /** Every delayed frame is accepted at most once, whatever the gets in between:
      the queue accepts a put exactly if it is the first admissible one of its frame. */
  lemma {:induction false} AcceptsExactlyTheFirstPut<B>(delay: int, initial: int, ops: seq<Op<B>>, frame: int, blank: B)
    ensures Accepts(After(EmptyQueue(delay, initial), ops), frame)
            <==> Admissible(delay, initial, frame) && frame + delay !in Recorded(delay, initial, ops)
  {
    QueueRefinesDelayLine(delay, initial, ops, blank);
    var out := Delivered(EmptyQueue(delay, initial), ops, blank);
    if Admissible(delay, initial, frame) && frame + delay <= |out| - 1 {
      assert frame + delay in Recorded(delay, initial, ops);
    }
  }

  /** What a get answers after any run, told by the buttons handed out so far and the
      reference alone: only the frame that is next in line can be had; it is the blank
      during the initial delay, then what was recorded, and absent otherwise. */
  lemma {:induction false} EveryAnswer<B>(delay: int, initial: int, ops: seq<Op<B>>, frame: int, blank: B)
    ensures var out := Delivered(EmptyQueue(delay, initial), ops, blank);
            var recorded := Recorded(delay, initial, ops);
            Answer(After(EmptyQueue(delay, initial), ops), frame, blank)
            == if frame != |out| then UnexpectedFrame
               else if frame < initial then Success(blank)
               else if frame in recorded then Success(recorded[frame])
               else Timeout
  {
    QueueRefinesDelayLine(delay, initial, ops, blank);
  }

  /** A get that is not answered with buttons leaves the queue as it was. */
  lemma FailedGetChangesNothing<B>(q: QueueState<B>, frame: int, blank: B)
    ensures !Answer(q, frame, blank).Success? <==> AfterGet(q, frame) == q
  {
    assert Answers(q, frame) ==> AfterGet(q, frame).latest != q.latest;
  }

  /** The puts that a run of the queue accepts, by delayed frame. */
  function Accepted<B>(q: QueueState<B>, ops: seq<Op<B>>): map<int, B> {
    if ops == [] then map[]
    else
      var before, last := Accepted(q, ops[..|ops| - 1]), ops[|ops| - 1];
      if last.PutOp? && Accepts(After(q, ops[..|ops| - 1]), last.frame)
      then before[last.frame + q.delay := last.buttons] else before
  }

  lemma {:induction false} AcceptedIsRecorded<B>(delay: int, initial: int, ops: seq<Op<B>>, blank: B)
    ensures Accepted(EmptyQueue(delay, initial), ops) == Recorded(delay, initial, ops)
  {
    if ops != [] {
      var prefix, last := ops[..|ops| - 1], ops[|ops| - 1];
      AcceptedIsRecorded(delay, initial, prefix, blank);
      if last.PutOp? {
        AcceptsExactlyTheFirstPut(delay, initial, prefix, last.frame, blank);
      }
    }
  }

  /** The accepted puts alone decide the output: neither their order nor anything that
      was rejected, late or duplicate, makes a difference. */
  lemma {:induction false} SameAcceptedPutsSameOutput<B>(delay: int, initial: int, ops: seq<Op<B>>, ops': seq<Op<B>>, blank: B)
    requires Accepted(EmptyQueue(delay, initial), ops) == Accepted(EmptyQueue(delay, initial), ops')
    ensures var out := Delivered(EmptyQueue(delay, initial), ops, blank);
            var out' := Delivered(EmptyQueue(delay, initial), ops', blank);
            && (forall k | 0 <= k < |out| && k < |out'| :: out[k] == out'[k])
            && (|out| == |out'| ==> out == out')
  {
    AcceptedIsRecorded(delay, initial, ops, blank);
    AcceptedIsRecorded(delay, initial, ops', blank);
    QueueRefinesDelayLine(delay, initial, ops, blank);
    QueueRefinesDelayLine(delay, initial, ops', blank);
  }

  /** A frame is recorded with the buttons of its first put, and only so. */
  lemma {:induction false} RecordedIsFirstPut<B>(delay: int, initial: int, ops: seq<Op<B>>, frame: int)
    requires Admissible(delay, initial, frame)
    ensures frame + delay in Recorded(delay, initial, ops) <==> exists j :: IsFirstPut(ops, frame, j)
    ensures forall j | IsFirstPut(ops, frame, j) :: Recorded(delay, initial, ops)[frame + delay] == ops[j].buttons
  {
    if ops != [] {
      var prefix := ops[..|ops| - 1];
      RecordedIsFirstPut(delay, initial, prefix, frame);
      forall j | 0 <= j < |prefix|
        ensures IsFirstPut(prefix, frame, j) <==> IsFirstPut(ops, frame, j)
      {
      }
      var last := |ops| - 1;
      if IsFirstPut(ops, frame, last) {
        assert frame + delay !in Recorded(delay, initial, prefix);
      } else if ops[last].PutOp? && ops[last].frame == frame {
        var i :| 0 <= i < last && ops[i].PutOp? && ops[i].frame == frame;
        FirstPutExists(prefix, frame, i);
      }
    }
  }

  ghost predicate IsFirstPut<B>(ops: seq<Op<B>>, frame: int, j: int) {
    && 0 <= j < |ops| && ops[j].PutOp? && ops[j].frame == frame
    && forall i | 0 <= i < j && ops[i].PutOp? :: ops[i].frame != frame
  }

  lemma {:induction false} FirstPutExists<B>(ops: seq<Op<B>>, frame: int, i: int)
    requires 0 <= i < |ops| && ops[i].PutOp? && ops[i].frame == frame
    ensures exists j :: IsFirstPut(ops, frame, j)
    decreases i
  {
    if !IsFirstPut(ops, frame, i) {
      var k :| 0 <= k < i && ops[k].PutOp? && ops[k].frame == frame;
      FirstPutExists(ops, frame, k);
    }
  }

  ghost predicate PutsEachFrameOnce<B>(ops: seq<Op<B>>) {
    forall i, j | 0 <= i < j < |ops| && ops[i].PutOp? && ops[j].PutOp? :: ops[i].frame != ops[j].frame
  }

  ghost predicate SamePuts<B>(ops: seq<Op<B>>, ops': seq<Op<B>>) {
    && (forall op <- ops | op.PutOp? :: op in ops')
    && (forall op <- ops' | op.PutOp? :: op in ops)
  }

  /** A producer may shuffle its frames and race with the consumer as it likes: two
      runs that try the same puts, each frame once, hand out the same buttons for as
      long as both last. */
  lemma {:induction false} PutOrderDoesNotMatter<B>(delay: int, initial: int, ops: seq<Op<B>>, ops': seq<Op<B>>, blank: B)
    requires PutsEachFrameOnce(ops) && PutsEachFrameOnce(ops') && SamePuts(ops, ops')
    ensures var out := Delivered(EmptyQueue(delay, initial), ops, blank);
            var out' := Delivered(EmptyQueue(delay, initial), ops', blank);
            forall k | 0 <= k < |out| && k < |out'| :: out[k] == out'[k]
  {
    var out := Delivered(EmptyQueue(delay, initial), ops, blank);
    var out' := Delivered(EmptyQueue(delay, initial), ops', blank);
    QueueRefinesDelayLine(delay, initial, ops, blank);
    QueueRefinesDelayLine(delay, initial, ops', blank);
    forall k | 0 <= k < |out| && k < |out'| && initial <= k
      ensures out[k] == out'[k]
    {
      assert k - delay + delay == k;
      SameRecord(delay, initial, ops, ops', k - delay);
    }
  }

  lemma {:induction false} SameRecord<B>(delay: int, initial: int, ops: seq<Op<B>>, ops': seq<Op<B>>, frame: int)
    requires PutsEachFrameOnce(ops') && SamePuts(ops, ops')
    requires frame + delay in Recorded(delay, initial, ops) && frame + delay in Recorded(delay, initial, ops')
    ensures Recorded(delay, initial, ops)[frame + delay] == Recorded(delay, initial, ops')[frame + delay]
  {
    RecordedComesFromAPut(delay, initial, ops, frame);
    var j :| IsFirstPut(ops, frame, j);
    assert ops[j] in ops';
    var j' :| 0 <= j' < |ops'| && ops'[j'] == ops[j];
    assert IsFirstPut(ops', frame, j');
    RecordedComesFromAPut(delay, initial, ops', frame);
  }

  lemma {:induction false} RecordedComesFromAPut<B>(delay: int, initial: int, ops: seq<Op<B>>, frame: int)
    requires frame + delay in Recorded(delay, initial, ops)
    ensures exists j :: IsFirstPut(ops, frame, j)
    ensures forall j | IsFirstPut(ops, frame, j) :: ops[j].buttons == Recorded(delay, initial, ops)[frame + delay]
  {
    AdmissibleIfRecorded(delay, initial, ops, frame + delay);
    RecordedIsFirstPut(delay, initial, ops, frame);
  }

  lemma {:induction false} AdmissibleIfRecorded<B>(delay: int, initial: int, ops: seq<Op<B>>, g: int)
    requires g in Recorded(delay, initial, ops)
    ensures Admissible(delay, initial, g - delay)
  {
    if g in Recorded(delay, initial, ops[..|ops| - 1]) {
      AdmissibleIfRecorded(delay, initial, ops[..|ops| - 1], g);
    }
  }

  // ---------------------------------------------------------------------------
  // Conservation

  ghost function Interval(lo: int, hi: int): (frames: set<int>)
    ensures forall g :: g in frames <==> lo <= g < hi
    ensures |frames| == if lo <= hi then hi - lo else 0
    decreases hi - lo
  {
    if hi <= lo then {} else Interval(lo, hi - 1) + {hi - 1}
  }

  /** Nothing is lost or invented: accepted puts = deliveries beyond the initial
      delay + frames still in the queue. */
  lemma {:induction false} Conservation<B>(delay: int, initial: int, ops: seq<Op<B>>, blank: B)
    ensures var q := After(EmptyQueue(delay, initial), ops);
            var out := Delivered(EmptyQueue(delay, initial), ops, blank);
            var first := if initial < 0 then 0 else initial;
            |Recorded(delay, initial, ops)| == (if first < |out| then |out| - first else 0) + |q.buttons|
  {
    QueueRefinesDelayLine(delay, initial, ops, blank);
    var q := After(EmptyQueue(delay, initial), ops);
    var out := Delivered(EmptyQueue(delay, initial), ops, blank);
    PendingSize(Recorded(delay, initial, ops), if initial < 0 then 0 else initial, out, initial, blank);
  }

  lemma {:induction false} PendingSize<B>(recorded: map<int, B>, first: int, out: seq<B>, initial: int, blank: B)
    requires LineOutput(out, recorded, initial, blank)
    requires first == if initial < 0 then 0 else initial
    requires forall g <- recorded :: first <= g
    ensures |recorded| == (if first < |out| then |out| - first else 0) + |Pending(recorded, |out| - 1)|
  {
    var read := Interval(first, |out|);
    var pending := Pending(recorded, |out| - 1);
    forall g | g in read ensures g in recorded {
      assert out[g] == recorded[g];
    }
    assert recorded.Keys == read + pending.Keys;
    assert |recorded.Keys| == |read| + |pending.Keys|;
    assert |recorded| == |recorded.Keys| && |pending| == |pending.Keys|;
  }
}
