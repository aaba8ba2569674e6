/** The input queue shared by any number of producer and consumer threads.

    Each thread is at a program point of `PutButtons` or `GetButtons`; a step is
    what one thread does between two points at which another may interfere:
    locking the mutex, a locked section up to the unlock, entering or leaving the
    condition variable, and `notify_all`, which is issued after the unlock. */
module QueueThreads {
  import opened NetplayTypes
  import opened DelayLine

  /** What a call returns to its thread. */
  datatype Reply<B> = PutReply(accepted: bool) | GetReply(result: GetResult<B>)

  datatype Thread<B> =
    | Idle
    | WantsPut(frame: int, buttons: B)                     // called, mutex not yet held
    | Putting(frame: int, buttons: B)                      // holds the mutex
    | OwesNotify                                           // inserted and unlocked
    | WantsGet(frame: int, timed: bool)
    | Getting(frame: int, timed: bool)                     // holds the mutex, frame not yet checked
    | Testing(frame: int, timed: bool, expired: bool)      // holds the mutex, about to look for its frame
    | Asleep(frame: int, timed: bool, notified: bool)      // in the condition variable
    | Waking(frame: int, timed: bool, expired: bool)       // left it, mutex not yet held
    | Returned(reply: Reply<B>)

  datatype Shared<B> = Shared(owner: Option<nat>, queue: QueueState<B>, threads: seq<Thread<B>>)

  /** Not timed: kBlockForever. */
  datatype Call<B> = PutCall(frame: int, buttons: B) | GetCall(frame: int, timed: bool)

  datatype Event<B> =
    | Begin(t: nat, call: Call<B>)
    | Run(t: nat)
    | WakeSpuriously(t: nat)
    | Expire(t: nat)

  predicate HoldsMutex<B>(th: Thread<B>) {
    th.Putting? || th.Getting? || th.Testing?
  }

  predicate Waiting<B>(th: Thread<B>) {
    th.Testing? || th.Asleep? || th.Waking?
  }

  predicate Enabled<B>(s: Shared<B>, e: Event<B>) {
    && e.t < |s.threads|
    && var th := s.threads[e.t];
       match e
       case Begin(_, _) => th.Idle? || th.Returned?
       case Run(_) =>
         (match th
          case Idle => false
          case Returned(_) => false
          case WantsPut(_, _) => s.owner.None?
          case WantsGet(_, _) => s.owner.None?
          case Waking(_, _, _) => s.owner.None?
          case Asleep(_, _, notified) => notified
          case _ => true)
       case WakeSpuriously(_) => th.Asleep?
       case Expire(_) => th.Asleep? && th.timed
  }

  function At<B>(s: Shared<B>, t: nat, th: Thread<B>): Shared<B>
    requires t < |s.threads|
  {
    s.(threads := s.threads[t := th])
  }

  function Lock<B>(s: Shared<B>, t: nat, th: Thread<B>): Shared<B>
    requires t < |s.threads|
  {
    At(s, t, th).(owner := Some(t))
  }

  function Unlock<B>(s: Shared<B>, t: nat, th: Thread<B>): Shared<B>
    requires t < |s.threads|
  {
    At(s, t, th).(owner := None)
  }

  function Notify<B>(th: Thread<B>): Thread<B> {
    if th.Asleep? then th.(notified := true) else th
  }

  function RunThread<B>(s: Shared<B>, t: nat, blank: B): Shared<B>
    requires t < |s.threads|
  {
    match s.threads[t]
    case Idle => s
    case Returned(_) => s
    case WantsPut(frame, b) =>
      if frame < 0 || frame + s.queue.delay < s.queue.initial then At(s, t, Returned(PutReply(false)))
      else Lock(s, t, Putting(frame, b))
    case Putting(frame, b) =>
      var delayed := frame + s.queue.delay;
      if delayed <= s.queue.latest || delayed in s.queue.buttons then Unlock(s, t, Returned(PutReply(false)))
      else Unlock(s, t, OwesNotify).(queue := s.queue.(buttons := s.queue.buttons[delayed := b]))
    case OwesNotify =>
      At(s.(threads := seq(|s.threads|, i requires 0 <= i < |s.threads| => Notify(s.threads[i]))), t,
         Returned(PutReply(true)))
    case WantsGet(frame, timed) => Lock(s, t, Getting(frame, timed))
    case Getting(frame, timed) =>
      if frame != s.queue.latest + 1 then Unlock(s, t, Returned(GetReply(UnexpectedFrame)))
      else if frame < s.queue.initial
      then Unlock(s, t, Returned(GetReply(Success(blank)))).(queue := s.queue.(latest := frame))
      else At(s, t, Testing(frame, timed, false))
    case Testing(frame, timed, expired) =>
      if frame in s.queue.buttons then Take(s, t, frame)
      else Unlock(s, t, if expired then Returned(GetReply(Timeout)) else Asleep(frame, timed, false))
    case Asleep(frame, timed, _) => At(s, t, Waking(frame, timed, false))
    case Waking(frame, timed, expired) => Lock(s, t, Testing(frame, timed, expired))
  }

  /** After the wait the frame is taken without looking at `latest` again. */
  function Take<B>(s: Shared<B>, t: nat, frame: int): Shared<B>
    requires t < |s.threads| && frame in s.queue.buttons
  {
    Unlock(s, t, Returned(GetReply(Success(s.queue.buttons[frame]))))
    .(queue := s.queue.(buttons := s.queue.buttons - {frame}, latest := frame))
  }

  function Next<B>(s: Shared<B>, e: Event<B>, blank: B): Shared<B> {
    if !Enabled(s, e) then s
    else
      match e
      case Begin(t, PutCall(frame, b)) => At(s, t, WantsPut(frame, b))
      case Begin(t, GetCall(frame, timed)) => At(s, t, WantsGet(frame, timed))
      case Run(t) => RunThread(s, t, blank)
      case WakeSpuriously(t) => At(s, t, Waking(s.threads[t].frame, s.threads[t].timed, false))
      case Expire(t) => At(s, t, Waking(s.threads[t].frame, s.threads[t].timed, true))
  }

  function Start<B>(delay: int, initial: int, nThreads: nat): Shared<B> {
    Shared(None, EmptyQueue(delay, initial), seq(nThreads, _ => Idle))
  }

  function Exec<B>(s: Shared<B>, events: seq<Event<B>>, blank: B): (s': Shared<B>)
    ensures |s'.threads| == |s.threads|
  {
    if events == [] then s else Next(Exec(s, events[..|events| - 1], blank), events[|events| - 1], blank)
  }

  // ---------------------------------------------------------------------------
  // Observing a run from outside, through the states of the threads only

  /** The call that a thread is in and that has not taken effect yet. */
  function PendingCall<B>(th: Thread<B>): seq<Call<B>> {
    match th
    case Idle => []
    case Returned(_) => []
    case OwesNotify => []
    case WantsPut(frame, b) => [PutCall(frame, b)]
    case Putting(frame, b) => [PutCall(frame, b)]
    case _ => [GetCall(th.frame, th.timed)]
  }

  /** A call that takes effect, and how it was answered. */
  datatype Effect<B> = Effect(t: nat, call: Call<B>, reply: Reply<B>)

  /** A call takes effect when its thread is done with it or, for an accepted put, has
      only its notification left to give. */
  function EffectOf<B>(t: nat, th: Thread<B>, th': Thread<B>): seq<Effect<B>> {
    if PendingCall(th) == [] then []
    else if th'.OwesNotify? then [Effect(t, PendingCall(th)[0], PutReply(true))]
    else if th'.Returned? then [Effect(t, PendingCall(th)[0], th'.reply)]
    else []
  }

  function StepEffect<B>(s: Shared<B>, e: Event<B>, blank: B): seq<Effect<B>> {
    if Enabled(s, e) && e.t < |Next(s, e, blank).threads|
    then EffectOf(e.t, s.threads[e.t], Next(s, e, blank).threads[e.t]) else []
  }

  /** The calls of a run in the order in which they took effect. */
  function Effects<B>(s: Shared<B>, events: seq<Event<B>>, blank: B): seq<Effect<B>> {
    if events == [] then []
    else
      var before := events[..|events| - 1];
      Effects(s, before, blank) + StepEffect(Exec(s, before, blank), events[|events| - 1], blank)
  }

  /** The calls that thread t made in a run, and those of its calls that took effect. */
  function CallsBy<B>(s: Shared<B>, events: seq<Event<B>>, blank: B, t: nat): seq<Call<B>> {
    if events == [] then []
    else
      var before, e := events[..|events| - 1], events[|events| - 1];
      CallsBy(s, before, blank, t) + if Enabled(Exec(s, before, blank), e) && e.Begin? && e.t == t then [e.call] else []
  }

  function EffectiveBy<B>(effects: seq<Effect<B>>, t: nat): seq<Call<B>> {
    if effects == [] then []
    else
      var last := effects[|effects| - 1];
      EffectiveBy(effects[..|effects| - 1], t) + if last.t == t then [last.call] else []
  }

  function LastReply<B>(effects: seq<Effect<B>>, t: nat): Option<Reply<B>> {
    if effects == [] then None
    else if effects[|effects| - 1].t == t then Some(effects[|effects| - 1].reply)
    else LastReply(effects[..|effects| - 1], t)
  }

  function OpOf<B>(call: Call<B>): Op<B> {
    match call
    case PutCall(frame, b) => PutOp(frame, b)
    case GetCall(frame, _) => GetOp(frame)
  }

  function Ops<B>(effects: seq<Effect<B>>): seq<Op<B>> {
    if effects == [] then [] else Ops(effects[..|effects| - 1]) + [OpOf(effects[|effects| - 1].call)]
  }

  /** The reply is the one that a caller alone with the queue gets; only a consumer that
      was overtaken while it waited times out, instead of learning that its frame is not
      the next one any more. A call that blocks forever never times out. */
  ghost predicate Fits<B>(q: QueueState<B>, effect: Effect<B>, blank: B) {
    match effect.call
    case PutCall(frame, _) => effect.reply == PutReply(Accepts(q, frame))
    case GetCall(frame, timed) =>
      && (effect.reply == GetReply(Answer(q, frame, blank)) || (effect.reply == GetReply(Timeout) && frame <= q.latest))
      && (effect.reply == GetReply(Timeout) ==> timed)
  }

  /** Every reply fits the queue that the calls before it leave. */
  ghost predicate Sequential<B>(start: QueueState<B>, effects: seq<Effect<B>>, blank: B) {
    effects != [] ==>
      && Sequential(start, effects[..|effects| - 1], blank)
      && Fits(After(start, Ops(effects[..|effects| - 1])), effects[|effects| - 1], blank)
  }

  // ---------------------------------------------------------------------------
  // What every interleaving keeps

  ghost predicate MutexInv<B>(s: Shared<B>) {
    && (s.owner.Some? ==> s.owner.value < |s.threads|)
    && forall t: nat | t < |s.threads| :: HoldsMutex(s.threads[t]) <==> s.owner == Some(t)
  }

  /** What was checked before the mutex was taken. */
  ghost predicate PuttersInv<B>(s: Shared<B>) {
    forall t: nat | t < |s.threads| && s.threads[t].Putting? ::
      0 <= s.threads[t].frame && s.queue.initial <= s.threads[t].frame + s.queue.delay
  }

  /** The check made before the wait, weakened to what other consumers can do to it. */
  ghost predicate WaitersInv<B>(s: Shared<B>) {
    forall t: nat | t < |s.threads| && Waiting(s.threads[t]) ::
      s.queue.initial <= s.threads[t].frame <= s.queue.latest + 1
  }

  predicate MayExpire<B>(th: Thread<B>) {
    (th.Testing? || th.Waking?) && th.expired ==> th.timed
  }

  ghost predicate ExpiryInv<B>(s: Shared<B>) {
    forall t: nat | t < |s.threads| :: MayExpire(s.threads[t])
  }

  ghost predicate SomeoneOwesNotify<B>(s: Shared<B>) {
    exists p: nat :: p < |s.threads| && s.threads[p].OwesNotify?
  }

  ghost predicate SleepsOn<B>(s: Shared<B>, t: nat) {
    t < |s.threads| && s.threads[t].Asleep? && !s.threads[t].notified
  }

  ghost predicate NoLostWakeup<B>(s: Shared<B>) {
    forall t: nat | SleepsOn(s, t) && s.threads[t].frame in s.queue.buttons :: SomeoneOwesNotify(s)
  }

  ghost predicate Inv<B>(s: Shared<B>) {
    MutexInv(s) && PuttersInv(s) && WaitersInv(s) && ExpiryInv(s) && NoLostWakeup(s) && QueueInv(s.queue)
  }

  lemma RunKeepsMutex<B>(s: Shared<B>, t: nat, blank: B)
    requires MutexInv(s) && Enabled(s, Run(t))
    ensures MutexInv(RunThread(s, t, blank))
  {
  }

  lemma RunKeepsThreads<B>(s: Shared<B>, t: nat, blank: B)
    requires PuttersInv(s) && WaitersInv(s) && ExpiryInv(s) && QueueInv(s.queue) && Enabled(s, Run(t))
    ensures var s' := RunThread(s, t, blank);
            PuttersInv(s') && WaitersInv(s') && ExpiryInv(s') && QueueInv(s'.queue)
  {
  }

  lemma RunKeepsWakeups<B>(s: Shared<B>, t: nat, blank: B)
    requires NoLostWakeup(s) && Enabled(s, Run(t))
    ensures NoLostWakeup(RunThread(s, t, blank))
  {
    var s' := RunThread(s, t, blank);
    forall u: nat | SleepsOn(s', u) && s'.threads[u].frame in s'.queue.buttons
      ensures SomeoneOwesNotify(s')
    {
      if s'.threads[t].OwesNotify? {
      } else {
        assert SleepsOn(s, u) && s.threads[u] == s'.threads[u];
        var p: nat :| p < |s.threads| && s.threads[p].OwesNotify?;
        assert s'.threads[p].OwesNotify?;
      }
    }
  }

  lemma NextKeepsInv<B>(s: Shared<B>, e: Event<B>, blank: B)
    requires Inv(s)
    ensures Inv(Next(s, e, blank))
  {
    var s' := Next(s, e, blank);
    if Enabled(s, e) {
      if e.Run? {
        RunKeepsMutex(s, e.t, blank);
        RunKeepsThreads(s, e.t, blank);
        RunKeepsWakeups(s, e.t, blank);
      } else {
        forall u: nat | SleepsOn(s', u) && s'.threads[u].frame in s'.queue.buttons
          ensures SomeoneOwesNotify(s')
        {
          assert SleepsOn(s, u);
          var p: nat :| p < |s.threads| && s.threads[p].OwesNotify?;
          assert s'.threads[p].OwesNotify?;
        }
      }
    }
  }

  lemma {:induction false} ReachableInv<B>(delay: int, initial: int, n: nat, events: seq<Event<B>>, blank: B)
    ensures Inv(Exec(Start(delay, initial, n), events, blank))
  {
    if events != [] {
      ReachableInv(delay, initial, n, events[..|events| - 1], blank);
      NextKeepsInv(Exec(Start(delay, initial, n), events[..|events| - 1], blank), events[|events| - 1], blank);
    }
  }

  // ---------------------------------------------------------------------------
  // Every run is a sequential one

  /** A step changes the queue as the call does that takes effect in it, if any. */
  lemma StepTakesEffect<B>(s: Shared<B>, e: Event<B>, blank: B)
    requires Inv(s)
    ensures var effect, s' := StepEffect(s, e, blank), Next(s, e, blank);
            if effect == [] then s'.queue == s.queue
            else |effect| == 1 && Fits(s.queue, effect[0], blank) && s'.queue == Step(s.queue, OpOf(effect[0].call))
  {
    if Enabled(s, e) && e.Run? {
      assert MayExpire(s.threads[e.t]);
    }
  }

  lemma OneMoreEffect<B>(start: QueueState<B>, effects: seq<Effect<B>>, effect: Effect<B>, blank: B)
    requires Sequential(start, effects, blank) && Fits(After(start, Ops(effects)), effect, blank)
    ensures Sequential(start, effects + [effect], blank)
    ensures After(start, Ops(effects + [effect])) == Step(After(start, Ops(effects)), OpOf(effect.call))
  {
    var more := effects + [effect];
    assert more[..|more| - 1] == effects;
    assert Ops(more)[..|Ops(more)| - 1] == Ops(effects);
  }

  /** Linearization: whatever the interleaving, the calls in the order in which they
      took effect, made one after the other, get the same replies and leave the same
      queue. */
  lemma {:induction false} EveryRunIsSequential<B>(delay: int, initial: int, n: nat, events: seq<Event<B>>, blank: B)
    ensures var s, start := Start(delay, initial, n), EmptyQueue(delay, initial);
            && Sequential(start, Effects(s, events, blank), blank)
            && Exec(s, events, blank).queue == After(start, Ops(Effects(s, events, blank)))
  {
    if events != [] {
      var s, before := Start(delay, initial, n), events[..|events| - 1];
      EveryRunIsSequential(delay, initial, n, before, blank);
      ReachableInv(delay, initial, n, before, blank);
      StepTakesEffect(Exec(s, before, blank), events[|events| - 1], blank);
      var effects, effect := Effects(s, before, blank), StepEffect(Exec(s, before, blank), events[|events| - 1], blank);
      if effect == [] {
        assert effects + effect == effects;
      } else {
        assert effect == [effect[0]];
        OneMoreEffect(EmptyQueue(delay, initial), effects, effect[0], blank);
      }
    }
  }

  ghost predicate RepliesMatch<B>(th: Thread<B>, last: Option<Reply<B>>) {
    && (th.Returned? ==> last == Some(th.reply))
    && (th.OwesNotify? ==> last == Some(PutReply(true)))
  }

  /** Every call that a thread made took effect exactly once, in the thread's own order
      and with the arguments it was made with, except for the one it may still be in;
      and what a thread was returned is the reply of its last call that took effect. */
  lemma {:induction false} CallsTakeEffectOnce<B>(
      delay: int, initial: int, n: nat, events: seq<Event<B>>, blank: B, t: nat)
    requires t < n
    ensures var s := Start(delay, initial, n);
            var th, effects := Exec(s, events, blank).threads[t], Effects(s, events, blank);
            && CallsBy(s, events, blank, t) == EffectiveBy(effects, t) + PendingCall(th)
            && RepliesMatch(th, LastReply(effects, t))
  {
    if events != [] {
      var s0, before, e := Start(delay, initial, n), events[..|events| - 1], events[|events| - 1];
      CallsTakeEffectOnce(delay, initial, n, before, blank, t);
      var s := Exec(s0, before, blank);
      if Enabled(s, e) && e.t == t {
        OwnStep(s, e, blank);
      } else {
        StepOfAnother(s, e, blank, t);
      }
      OneMoreReply(Effects(s0, before, blank), StepEffect(s, e, blank), t);
    }
  }

  /** Nobody else interferes with the call that a thread is in. */
  lemma StepOfAnother<B>(s: Shared<B>, e: Event<B>, blank: B, t: nat)
    requires t < |s.threads| && (!Enabled(s, e) || e.t != t)
    ensures var th, th', effect := s.threads[t], Next(s, e, blank).threads[t], StepEffect(s, e, blank);
            && PendingCall(th') == PendingCall(th) && (effect == [] || effect[0].t != t)
            && (if th.Asleep? then th'.Asleep? else th' == th)
  {
  }

  /** What a step of its own does to the call that a thread is in. */
  lemma OwnStep<B>(s: Shared<B>, e: Event<B>, blank: B)
    requires Enabled(s, e)
    ensures var th, th', effect := s.threads[e.t], Next(s, e, blank).threads[e.t], StepEffect(s, e, blank);
            if e.Begin? then
              PendingCall(th) == [] && PendingCall(th') == [e.call] && effect == [] && !th'.Returned? && !th'.OwesNotify?
            else if effect == [] then
              && PendingCall(th') == PendingCall(th) && (th.OwesNotify? <==> th'.Returned?) && !th'.OwesNotify?
              && (th'.Returned? ==> th'.reply == PutReply(true))
            else
              && PendingCall(th) == [effect[0].call] && PendingCall(th') == [] && effect[0].t == e.t
              && RepliesMatch(th', Some(effect[0].reply))
  {
  }

  lemma OneMoreReply<B>(effects: seq<Effect<B>>, more: seq<Effect<B>>, t: nat)
    requires |more| <= 1
    ensures EffectiveBy(effects + more, t)
         == EffectiveBy(effects, t) + if more != [] && more[0].t == t then [more[0].call] else []
    ensures LastReply(effects + more, t)
         == if more != [] && more[0].t == t then Some(more[0].reply) else LastReply(effects, t)
  {
    if more == [] {
      assert effects + more == effects;
    } else {
      assert (effects + more)[..|effects + more| - 1] == effects;
    }
  }

  // ---------------------------------------------------------------------------
  // Main results

  datatype Delivery<B> = Delivery(frame: int, buttons: B)

  /** The buttons handed out to all threads, in order. */
  function Deliveries<B>(effects: seq<Effect<B>>): seq<Delivery<B>> {
    if effects == [] then []
    else
      var last := effects[|effects| - 1];
      Deliveries(effects[..|effects| - 1])
      + match last
        case Effect(_, GetCall(frame, _), GetReply(Success(b))) => [Delivery(frame, b)]
        case _ => []
  }

  lemma {:induction false} DeliveriesAreDelivered<B>(
      delay: int, initial: int, effects: seq<Effect<B>>, blank: B)
    requires Sequential(EmptyQueue(delay, initial), effects, blank)
    ensures var got, start := Deliveries(effects), EmptyQueue(delay, initial);
            && |got| == |Delivered(start, Ops(effects), blank)|
            && forall k | 0 <= k < |got| ::
                 got[k].frame == k && got[k].buttons == Delivered(start, Ops(effects), blank)[k]
  {
    if effects != [] {
      var prefix := effects[..|effects| - 1];
      DeliveriesAreDelivered(delay, initial, prefix, blank);
      QueueRefinesDelayLine(delay, initial, Ops(prefix), blank);
      assert Ops(effects)[..|Ops(effects)| - 1] == Ops(prefix);
    }
  }

  /** Whatever the interleaving, what the threads were handed is what the
      first-write-wins delay line hands out, each frame once and in order. */
  lemma {:induction false} ThreadsSeeADelayLine<B>(delay: int, initial: int, n: nat, events: seq<Event<B>>, blank: B)
    ensures var effects := Effects(Start(delay, initial, n), events, blank);
            var got, recorded := Deliveries(effects), Recorded(delay, initial, Ops(effects));
            forall k | 0 <= k < |got| ::
              && got[k].frame == k
              && if k < initial then got[k].buttons == blank
                 else k in recorded && got[k].buttons == recorded[k]
  {
    var effects := Effects(Start(delay, initial, n), events, blank);
    EveryRunIsSequential(delay, initial, n, events, blank);
    DeliveriesAreDelivered(delay, initial, effects, blank);
    QueueRefinesDelayLine(delay, initial, Ops(effects), blank);
  }

  /** A consumer that finds its frame after waiting is the one whose turn it is:
      the check made before the wait is still true, and it is handed that frame. */
  lemma {:induction false} CheckSurvivesTheWait<B>(
      delay: int, initial: int, n: nat, events: seq<Event<B>>, blank: B, t: nat)
    requires var s := Exec(Start(delay, initial, n), events, blank);
             t < |s.threads| && s.threads[t].Testing? && s.threads[t].frame in s.queue.buttons
    ensures var s := Exec(Start(delay, initial, n), events, blank);
            var frame, s' := s.threads[t].frame, RunThread(s, t, blank);
            && frame == s.queue.latest + 1
            && Answer(s.queue, frame, blank) == Success(s.queue.buttons[frame])
            && s'.threads[t] == Returned(GetReply(Success(s.queue.buttons[frame])))
            && s'.queue == AfterGet(s.queue, frame)
  {
    ReachableInv(delay, initial, n, events, blank);
  }

  /** A sleeper whose frame is there was notified, or is about to be. */
  lemma {:induction false} SleepersAreWoken<B>(
      delay: int, initial: int, n: nat, events: seq<Event<B>>, blank: B, t: nat)
    requires var s := Exec(Start(delay, initial, n), events, blank);
             SleepsOn(s, t) && s.threads[t].frame in s.queue.buttons
    ensures SomeoneOwesNotify(Exec(Start(delay, initial, n), events, blank))
  {
    ReachableInv(delay, initial, n, events, blank);
  }

  ghost predicate SomeoneCanRun<B>(s: Shared<B>) {
    exists u: nat :: Enabled(s, Run(u))
  }

  predicate IsDone<B>(th: Thread<B>) {
    th.Idle? || th.Returned?
  }

  /** When no thread can run any more, each one is done or sleeps on an absent frame:
      the mutex is free, no notification is owed, and none was lost. */
  lemma {:induction false} OnlyAbsentFramesBlock<B>(
      delay: int, initial: int, n: nat, events: seq<Event<B>>, blank: B, t: nat)
    requires t < |Exec(Start(delay, initial, n), events, blank).threads|
    ensures var s := Exec(Start(delay, initial, n), events, blank);
            || SomeoneCanRun(s)
            || (s.owner.None? && IsDone(s.threads[t]))
            || (s.owner.None? && SleepsOn(s, t) && s.threads[t].frame !in s.queue.buttons)
  {
    ReachableInv(delay, initial, n, events, blank);
    var s := Exec(Start(delay, initial, n), events, blank);
    if s.owner.Some? {
      assert HoldsMutex(s.threads[s.owner.value]);
      assert Enabled(s, Run(s.owner.value));
    } else if Enabled(s, Run(t)) {
    } else if SleepsOn(s, t) && s.threads[t].frame in s.queue.buttons {
      var p: nat :| p < |s.threads| && s.threads[p].OwesNotify?;
      assert Enabled(s, Run(p));
    }
  }

  /** How many steps of its own a thread needs at most until it is done or sleeps. */
  function StepsLeft<B>(th: Thread<B>): nat {
    match th
    case Idle => 0
    case Returned(_) => 0
    case OwesNotify => 1
    case Putting(_, _) => 2
    case WantsPut(_, _) => 3
    case Testing(_, _, _) => 1
    case Getting(_, _) => 2
    case Waking(_, _, _) => 2
    case WantsGet(_, _) => 3
    case Asleep(_, _, _) => 3
  }

  /** A call is over after three steps of its thread, unless it goes to sleep; and it
      does that only if its frame is absent and its time is not up. */
  lemma OwnStepsFinish<B>(s: Shared<B>, t: nat, blank: B)
    requires Enabled(s, Run(t))
    ensures var th, th' := s.threads[t], RunThread(s, t, blank).threads[t];
            if th'.Asleep? then th.Testing? && !th.expired && th.frame !in s.queue.buttons
            else StepsLeft(th') < StepsLeft(th) <= 3
    ensures StepsLeft(RunThread(s, t, blank).threads[t]) == 0 ==> RunThread(s, t, blank).threads[t].Returned?
  {
  }

  /** A waiter whose frame went to another consumer never sees that frame again. */
  lemma {:induction false} OvertakenForGood<B>(
      delay: int, initial: int, n: nat, before: seq<Event<B>>, after: seq<Event<B>>, blank: B, frame: int)
    requires frame <= Exec(Start(delay, initial, n), before, blank).queue.latest
    ensures var later := Exec(Exec(Start(delay, initial, n), before, blank), after, blank);
            frame <= later.queue.latest && frame !in later.queue.buttons
  {
    var s := Exec(Start(delay, initial, n), before, blank);
    ReachableInv(delay, initial, n, before, blank);
    LatestNeverDecreases(s, after, blank);
  }

  lemma {:induction false} LatestNeverDecreases<B>(s: Shared<B>, events: seq<Event<B>>, blank: B)
    requires Inv(s)
    ensures Inv(Exec(s, events, blank)) && s.queue.latest <= Exec(s, events, blank).queue.latest
  {
    if events != [] {
      var before, last := Exec(s, events[..|events| - 1], blank), events[|events| - 1];
      LatestNeverDecreases(s, events[..|events| - 1], blank);
      NextKeepsInv(before, last, blank);
      StepTakesEffect(before, last, blank);
    }
  }
}
