/** What single calls of the event stream handler achieve, stated without reference
    to the order in which the code goes about it. */
module HandlerResults {
  import opened NetplayTypes
  import opened DelayLine
  import opened HandlerModel

  // ---------------------------------------------------------------------------
  // Reading until the buttons turn up

  /** The reads that ReadUntilButtons carries on from. */
  ghost predicate ButtonEvent(read: Read) {
    read.Some? && !read.value.stopConsole && read.value.startGame.None? && !read.value.invalidData
  }

  /** All key presses of some script, in order. */
  function Keys(script: seq<Read>): seq<KeyState> {
    if script == [] then []
    else (match script[0] case Some(event) => event.keyPresses case None => []) + Keys(script[1..])
  }

  lemma {:induction false} KeysConcat(a: seq<Read>, b: seq<Read>)
    ensures Keys(a + b) == Keys(a) + Keys(b)
  {
    if a == [] {
      assert a + b == b;
    } else {
      KeysConcat(a[1..], b);
      assert (a + b)[1..] == a[1..] + b && (a + b)[0] == a[0];
    }
  }

  lemma {:induction false} ApplyKeysConcat<B>(su: Setup<B>, queues: Queues<B>, a: seq<KeyState>, b: seq<KeyState>)
    ensures ApplyKeys(su, queues, a + b)
            == var first := ApplyKeys(su, queues, a);
               if first.error.Some? then first else ApplyKeys(su, first.queues, b)
    decreases |a|
  {
    if a == [] {
      assert a + b == b;
    } else {
      assert (a + b)[1..] == a[1..] + b;
      ApplyKeysConcat(su, ApplyKey(su, queues, a[0]).queues, a[1..], b);
    }
  }

  lemma HasKeyConcat(a: seq<KeyState>, b: seq<KeyState>, port: Port, frame: int)
    ensures HasKey(a + b, port, frame) <==> HasKey(a, port, frame) || HasKey(b, port, frame)
  {
    if HasKey(a, port, frame) {
      var i :| 0 <= i < |a| && a[i].port == port && a[i].frame == frame;
      assert (a + b)[i] == a[i];
    }
    if HasKey(b, port, frame) {
      var i :| 0 <= i < |b| && b[i].port == port && b[i].frame == frame;
      assert (a + b)[|a| + i] == b[i];
    }
  }

  /** The first of m events, and the others. */
  lemma SplitFirstEvent<B>(su: Setup<B>, queues: Queues<B>, script: seq<Read>, m: nat, port: Port, frame: int)
    requires 1 <= m <= |script| && script[0].Some?
    ensures var keys, others := script[0].value.keyPresses, Keys(script[1..][..m - 1]);
            && (HasKey(Keys(script[..m]), port, frame) <==> HasKey(keys, port, frame) || HasKey(others, port, frame))
            && ApplyKeys(su, queues, Keys(script[..m]))
               == var first := ApplyKeys(su, queues, keys);
                  if first.error.Some? then first else ApplyKeys(su, first.queues, others)
  {
    var keys, others := script[0].value.keyPresses, Keys(script[1..][..m - 1]);
    assert script[..m][1..] == script[1..][..m - 1];
    assert Keys(script[..m]) == keys + others;
    HasKeyConcat(keys, others, port, frame);
    ApplyKeysConcat(su, queues, keys, others);
  }

  lemma {:induction false} KeyErrorsAreErrors<B>(su: Setup<B>, queues: Queues<B>, keys: seq<KeyState>)
    ensures ApplyKeys(su, queues, keys).error != Some(GotButtons)
    decreases |keys|
  {
    if keys != [] {
      KeyErrorsAreErrors(su, ApplyKey(su, queues, keys[0]).queues, keys[1..]);
    }
  }

  /** The requested key is in the m-th event, in none before it, and all of them are
      button events. */
  ghost predicate FirstHit(script: seq<Read>, port: Port, frame: int, m: nat) {
    && 1 <= m <= |script|
    && (forall i | 0 <= i < m :: ButtonEvent(script[i]))
    && HasKey(script[m - 1].value.keyPresses, port, frame)
    && !HasKey(Keys(script[..m - 1]), port, frame)
  }

  lemma FirstHitLater(script: seq<Read>, port: Port, frame: int, m: nat)
    requires 2 <= m <= |script| && ButtonEvent(script[0])
    ensures FirstHit(script, port, frame, m)
            <==> FirstHit(script[1..], port, frame, m - 1) && !HasKey(script[0].value.keyPresses, port, frame)
  {
    assert script[..m - 1][1..] == script[1..][..m - 2];
    HasKeyConcat(script[0].value.keyPresses, Keys(script[1..][..m - 2]), port, frame);
    if FirstHit(script[1..], port, frame, m - 1) {
      forall i | 0 <= i < m ensures ButtonEvent(script[i]) {
        assert i > 0 ==> script[i] == script[1..][i - 1];
      }
    }
  }

  /** A first hit among events that the queues take is found: exactly the events up
      to it are consumed, and all their key presses, in order, are in the queues. */
  lemma {:induction false} FirstHitIsGot<B>(
      su: Setup<B>, queues: Queues<B>, script: seq<Read>, port: Port, frame: int, m: nat)
    requires FirstHit(script, port, frame, m)
    requires ApplyKeys(su, queues, Keys(script[..m])).error.None?
    ensures ReadUntilButtons(su, queues, script, port, frame)
         == ReadOutcome(ApplyKeys(su, queues, Keys(script[..m])).queues, script[m..], GotButtons)
    decreases m
  {
    SplitFirstEvent(su, queues, script, m, port, frame);
    if m > 1 {
      FirstHitLater(script, port, frame, m);
      FirstHitIsGot(su, ApplyKeys(su, queues, script[0].value.keyPresses).queues, script[1..], port, frame, m - 1);
    }
  }

  /** What the first event decides. */
  lemma FirstEvent<B>(su: Setup<B>, queues: Queues<B>, script: seq<Read>, port: Port, frame: int)
    requires script != [] && ButtonEvent(script[0])
    ensures var read := ReadUntilButtons(su, queues, script, port, frame);
            var pass := ApplyKeys(su, queues, script[0].value.keyPresses);
            if pass.error.Some?
            then read == ReadOutcome(pass.queues, script[1..], pass.error.value) && read.status != GotButtons
            else if HasKey(script[0].value.keyPresses, port, frame)
            then read == ReadOutcome(pass.queues, script[1..], GotButtons)
            else read == ReadUntilButtons(su, pass.queues, script[1..], port, frame)
  {
    KeyErrorsAreErrors(su, queues, script[0].value.keyPresses);
  }

  lemma HitAtOnce<B>(su: Setup<B>, queues: Queues<B>, script: seq<Read>, port: Port, frame: int)
    requires script != [] && ButtonEvent(script[0]) && HasKey(script[0].value.keyPresses, port, frame)
    requires ApplyKeys(su, queues, script[0].value.keyPresses).error.None?
    ensures FirstHit(script, port, frame, 1) && ApplyKeys(su, queues, Keys(script[..1])).error.None?
  {
    SplitFirstEvent(su, queues, script, 1, port, frame);
    assert Keys(script[..0]) == [];
  }

  lemma HitLater<B>(su: Setup<B>, queues: Queues<B>, script: seq<Read>, port: Port, frame: int, m: nat)
    requires 2 <= m <= |script| && ButtonEvent(script[0]) && !HasKey(script[0].value.keyPresses, port, frame)
    requires ApplyKeys(su, queues, script[0].value.keyPresses).error.None?
    requires FirstHit(script[1..], port, frame, m - 1)
    requires ApplyKeys(su, ApplyKeys(su, queues, script[0].value.keyPresses).queues, Keys(script[1..][..m - 1])).error.None?
    ensures FirstHit(script, port, frame, m) && ApplyKeys(su, queues, Keys(script[..m])).error.None?
  {
    FirstHitLater(script, port, frame, m);
    SplitFirstEvent(su, queues, script, m, port, frame);
  }

  /** Conversely, the buttons are only got at such a first hit. */
  lemma {:induction false} GotIsFirstHit<B>(su: Setup<B>, queues: Queues<B>, script: seq<Read>, port: Port, frame: int)
      returns (m: nat)
    requires ReadUntilButtons(su, queues, script, port, frame).status == GotButtons
    ensures FirstHit(script, port, frame, m)
    ensures ApplyKeys(su, queues, Keys(script[..m])).error.None?
    ensures ReadUntilButtons(su, queues, script, port, frame)
         == ReadOutcome(ApplyKeys(su, queues, Keys(script[..m])).queues, script[m..], GotButtons)
    decreases |script|
  {
    var keys := script[0].value.keyPresses;
    FirstEvent(su, queues, script, port, frame);
    if HasKey(keys, port, frame) {
      m := 1;
      HitAtOnce(su, queues, script, port, frame);
    } else {
      var k := GotIsFirstHit(su, ApplyKeys(su, queues, keys).queues, script[1..], port, frame);
      m := k + 1;
      HitLater(su, queues, script, port, frame, m);
    }
    FirstHitIsGot(su, queues, script, port, frame, m);
  }

  /** Why a read that is not followed by another one failed. */
  ghost predicate Stops<B>(su: Setup<B>, queues: Queues<B>, read: Read, status: ReadStatus, after: Queues<B>) {
    if read.None? then status == RpcReadFailure && after == queues
    else if read.value.stopConsole then status == ConsoleTerminated && after == queues
    else if !ButtonEvent(read) then status == NonButtonMessage && after == queues
    else ApplyKeys(su, queues, read.value.keyPresses) == KeyPass(after, Some(status))
  }

  /** After m whole button events without the requested key, the reads ran out or the
      next one was the cause of the failure. */
  ghost predicate Explains<B>(
    su: Setup<B>, queues: Queues<B>, script: seq<Read>, port: Port, frame: int, m: nat, read: ReadOutcome<B>)
  {
    && m <= |script|
    && (forall i | 0 <= i < m :: ButtonEvent(script[i]))
    && !HasKey(Keys(script[..m]), port, frame)
    && var pass := ApplyKeys(su, queues, Keys(script[..m]));
       && pass.error.None?
       && if m == |script| then read == ReadOutcome(pass.queues, [], RpcReadFailure)
          else Stops(su, pass.queues, script[m], read.status, read.queues) && read.incoming == script[m + 1..]
  }

  /** A failed read loses nothing that was read before its cause. */
  lemma {:induction false} NotGotIsExplained<B>(su: Setup<B>, queues: Queues<B>, script: seq<Read>, port: Port, frame: int)
      returns (m: nat)
    requires ReadUntilButtons(su, queues, script, port, frame).status != GotButtons
    ensures Explains(su, queues, script, port, frame, m, ReadUntilButtons(su, queues, script, port, frame))
    decreases |script|
  {
    if script == [] || !ButtonEvent(script[0]) || ApplyKeys(su, queues, script[0].value.keyPresses).error.Some? {
      m := 0;
      ExplainsAtOnce(su, queues, script, port, frame);
    } else {
      FirstEvent(su, queues, script, port, frame);
      var first := ApplyKeys(su, queues, script[0].value.keyPresses);
      var k := NotGotIsExplained(su, first.queues, script[1..], port, frame);
      ExplainsLater(su, queues, script, port, frame, k, ReadUntilButtons(su, queues, script, port, frame));
      m := k + 1;
    }
  }

  lemma ExplainsAtOnce<B>(su: Setup<B>, queues: Queues<B>, script: seq<Read>, port: Port, frame: int)
    requires script == [] || !ButtonEvent(script[0]) || ApplyKeys(su, queues, script[0].value.keyPresses).error.Some?
    ensures Explains(su, queues, script, port, frame, 0, ReadUntilButtons(su, queues, script, port, frame))
  {
    assert Keys(script[..0]) == [];
  }

  lemma ExplainsLater<B>(
      su: Setup<B>, queues: Queues<B>, script: seq<Read>, port: Port, frame: int, k: nat, read: ReadOutcome<B>)
    requires script != [] && ButtonEvent(script[0]) && !HasKey(script[0].value.keyPresses, port, frame)
    requires ApplyKeys(su, queues, script[0].value.keyPresses).error.None?
    requires Explains(su, ApplyKeys(su, queues, script[0].value.keyPresses).queues, script[1..], port, frame, k, read)
    ensures Explains(su, queues, script, port, frame, k + 1, read)
  {
    SplitFirstEvent(su, queues, script, k + 1, port, frame);
    forall i | 0 <= i < k + 1 ensures ButtonEvent(script[i]) {
      assert i > 0 ==> script[i] == script[1..][i - 1];
    }
    assert k + 1 < |script| ==> script[1..][k] == script[k + 1];
  }

  // ---------------------------------------------------------------------------
  // What key presses do to the queues

  /** Same ports, same constants, same progress; only the pending frames differ. */
  ghost predicate OnlyPendingDiffers<B>(queues: Queues<B>, queues': Queues<B>) {
    && queues'.Keys == queues.Keys
    && forall p <- queues :: queues'[p] == queues[p].(buttons := queues'[p].buttons)
  }

  lemma {:induction false} ApplyKeysOnlyAdds<B>(su: Setup<B>, queues: Queues<B>, keys: seq<KeyState>)
    ensures var after := ApplyKeys(su, queues, keys).queues;
            && OnlyPendingDiffers(queues, after)
            && (forall p <- queues, g <- queues[p].buttons ::
                  g in after[p].buttons && after[p].buttons[g] == queues[p].buttons[g])
            && (forall p <- queues | QueueInv(queues[p]) :: QueueInv(after[p]))
    decreases |keys|
  {
    if keys != [] && ApplyKey(su, queues, keys[0]).error.None? {
      ApplyKeysOnlyAdds(su, ApplyKey(su, queues, keys[0]).queues, keys[1..]);
    }
  }

  /** Every key press that went through is pending, shifted by its queue's delay. */
  lemma {:induction false} AppliedKeysArePending<B>(su: Setup<B>, queues: Queues<B>, keys: seq<KeyState>, i: nat)
    requires ApplyKeys(su, queues, keys).error.None? && i < |keys|
    ensures keys[i].port in queues
    ensures var q := ApplyKeys(su, queues, keys).queues[keys[i].port];
            && keys[i].frame + q.delay in q.buttons
            && su.coder.Decode(keys[i].pad) == Some(q.buttons[keys[i].frame + q.delay])
    decreases |keys|
  {
    var one := ApplyKey(su, queues, keys[0]).queues;
    if i == 0 {
      ApplyKeysOnlyAdds(su, one, keys[1..]);
    } else {
      AppliedKeysArePending(su, one, keys[1..], i - 1);
    }
  }

  /** Some key presses as tuples for the queues, those that do not decode left out. */
  function DecodedKeys<B>(su: Setup<B>, keys: seq<KeyState>): seq<ButtonsFrame<B>> {
    if keys == [] then []
    else
      var rest := DecodedKeys(su, keys[1..]);
      match su.coder.Decode(keys[0].pad)
      case None => rest
      case Some(b) => [ButtonsFrame(keys[0].port, keys[0].frame, b)] + rest
  }

  ghost predicate IsTaken<B>(su: Setup<B>, queues: Queues<B>, key: KeyState) {
    key.port in queues && su.coder.Decode(key.pad).Some? && Accepts(queues[key.port], key.frame)
  }

  /** Why a key press is refused. */
  ghost predicate IsRefused<B>(su: Setup<B>, queues: Queues<B>, key: KeyState, status: ReadStatus) {
    match status
    case InvalidButtonsMessage => key.port !in queues || su.coder.Decode(key.pad).None?
    case ReadRejectedByQueue =>
      key.port in queues && su.coder.Decode(key.pad).Some? && !Accepts(queues[key.port], key.frame)
    case _ => false
  }

  /** Key k is the first that is refused, each one being put to the queues that the
      keys before it have filled. */
  ghost predicate KeysStopAt<B>(
    su: Setup<B>, queues: Queues<B>, keys: seq<KeyState>, k: nat, error: Option<ReadStatus>)
  {
    && k <= |keys|
    && (forall j | 0 <= j < k :: IsTaken(su, InsertAll(queues, DecodedKeys(su, keys[..j])), keys[j]))
    && if k == |keys| then error.None?
       else error.Some? && IsRefused(su, InsertAll(queues, DecodedKeys(su, keys[..k])), keys[k], error.value)
  }

  lemma OneKey<B>(su: Setup<B>, queues: Queues<B>, key: KeyState)
    ensures var one := ApplyKey(su, queues, key);
            if one.error.Some? then one.queues == queues && IsRefused(su, queues, key, one.error.value)
            else
              && IsTaken(su, queues, key)
              && one.queues == InsertInto(queues, ButtonsFrame(key.port, key.frame, su.coder.Decode(key.pad).value))
  {
  }

  lemma FirstDecoded<B>(su: Setup<B>, queues: Queues<B>, keys: seq<KeyState>, i: nat)
    requires 0 < i <= |keys| && su.coder.Decode(keys[0].pad).Some?
    ensures var first := ButtonsFrame(keys[0].port, keys[0].frame, su.coder.Decode(keys[0].pad).value);
            InsertAll(queues, DecodedKeys(su, keys[..i]))
            == InsertAll(InsertInto(queues, first), DecodedKeys(su, keys[1..][..i - 1]))
  {
    var first := ButtonsFrame(keys[0].port, keys[0].frame, su.coder.Decode(keys[0].pad).value);
    var rest := DecodedKeys(su, keys[1..][..i - 1]);
    assert keys[..i][1..] == keys[1..][..i - 1];
    assert ([first] + rest)[1..] == rest;
  }

  lemma KeysStopLater<B>(
      su: Setup<B>, queues: Queues<B>, keys: seq<KeyState>, k: nat, error: Option<ReadStatus>)
    requires keys != [] && IsTaken(su, queues, keys[0])
    requires KeysStopAt(su, ApplyKey(su, queues, keys[0]).queues, keys[1..], k, error)
    ensures KeysStopAt(su, queues, keys, k + 1, error)
  {
    var queues1 := ApplyKey(su, queues, keys[0]).queues;
    forall j | 0 <= j < k + 1 ensures IsTaken(su, InsertAll(queues, DecodedKeys(su, keys[..j])), keys[j]) {
      if j > 0 {
        FirstDecoded(su, queues, keys, j);
        assert IsTaken(su, InsertAll(queues1, DecodedKeys(su, keys[1..][..j - 1])), keys[1..][j - 1]);
      }
    }
    if k + 1 < |keys| {
      FirstDecoded(su, queues, keys, k + 1);
      assert keys[1..][k] == keys[k + 1];
    }
  }

  /** Key presses enter the queues, decoded, up to the first that is refused; that one
      and those after it leave no trace, and the error says why it was refused. */
  lemma {:induction false} KeysStopAtFirstRefused<B>(su: Setup<B>, queues: Queues<B>, keys: seq<KeyState>)
      returns (k: nat)
    ensures var pass := ApplyKeys(su, queues, keys);
            KeysStopAt(su, queues, keys, k, pass.error) && pass.queues == InsertAll(queues, DecodedKeys(su, keys[..k]))
    decreases |keys|
  {
    k := 0;
    assert DecodedKeys(su, keys[..0]) == [];
    if keys != [] {
      var one := ApplyKey(su, queues, keys[0]);
      OneKey(su, queues, keys[0]);
      if one.error.None? {
        var j := KeysStopAtFirstRefused(su, one.queues, keys[1..]);
        KeysStopLater(su, queues, keys, j, ApplyKeys(su, queues, keys).error);
        FirstDecoded(su, queues, keys, j + 1);
        k := j + 1;
      }
    }
  }

  /** The branch marked "Probable logic error": for a queue that does not shift, the
      second get answers with buttons, whatever was read in between. */
  lemma SecondGetSucceeds<B>(su: Setup<B>, h: Handler<B>, port: Port, frame: int)
    requires port in h.queues && h.queues[port].delay == 0
    requires Answer(h.queues[port], frame, su.blank) == Timeout
    requires ReadUntilButtons(su, h.queues, h.incoming, port, frame).status == GotButtons
    ensures GetRemoteButtons(su, h, port, frame).status.GetSuccess?
    ensures var q := ReadUntilButtons(su, h.queues, h.incoming, port, frame).queues[port];
            frame in q.buttons && Answer(q, frame, su.blank) == Success(q.buttons[frame])
  {
    var m := GotIsFirstHit(su, h.queues, h.incoming, port, frame);
    var keys := Keys(h.incoming[..m]);
    assert h.incoming[..m] == h.incoming[..m - 1] + [h.incoming[m - 1]];
    KeysConcat(h.incoming[..m - 1], [h.incoming[m - 1]]);
    assert Keys([h.incoming[m - 1]]) == h.incoming[m - 1].value.keyPresses;
    HasKeyConcat(Keys(h.incoming[..m - 1]), h.incoming[m - 1].value.keyPresses, port, frame);
    var i :| 0 <= i < |keys| && keys[i].port == port && keys[i].frame == frame;
    AppliedKeysArePending(su, h.queues, keys, i);
    ApplyKeysOnlyAdds(su, h.queues, keys);
  }

  // ---------------------------------------------------------------------------
  // Putting a batch

  function InsertAll<B>(queues: Queues<B>, tuples: seq<ButtonsFrame<B>>): Queues<B>
    decreases |tuples|
  {
    if tuples == [] then queues else InsertAll(InsertInto(queues, tuples[0]), tuples[1..])
  }

  /** The keys that announce some tuples: those of local ports, in order, with the
      frame shifted by the port's delay. */
  function WireKeys<B>(su: Setup<B>, delays: Port -> int, tuples: seq<ButtonsFrame<B>>): seq<KeyState> {
    if tuples == [] then [] else WireKey(su, delays(tuples[0].port), tuples[0]) + WireKeys(su, delays, tuples[1..])
  }

  function WireKey<B>(su: Setup<B>, delay: int, t: ButtonsFrame<B>): seq<KeyState> {
    if t.port !in su.localPorts then []
    else match su.coder.Encode(t.buttons)
      case None => []
      case Some(pad) => [KeyState(su.consoleId, t.port, t.frame + delay, pad)]
  }

  /** The tuple that makes a pass over `queues` end with this status. */
  ghost predicate IsCause<B>(su: Setup<B>, queues: Queues<B>, t: ButtonsFrame<B>, status: PutStatus) {
    match status
    case NoSuchPort => t.port !in queues
    case RejectedByQueue => t.port in queues && !Accepts(queues[t.port], t.frame)
    case InternalError =>
      && t.port in queues && Accepts(queues[t.port], t.frame)
      && t.port in su.localPorts && queues[t.port].delay < 0
    case FailedToEncode =>
      && t.port in queues && Accepts(queues[t.port], t.frame)
      && t.port in su.localPorts && queues[t.port].delay >= 0 && su.coder.Encode(t.buttons).None?
    case _ => false
  }

  ghost predicate Innocent<B>(su: Setup<B>, queues: Queues<B>, t: ButtonsFrame<B>) {
    forall status :: !IsCause(su, queues, t, status)
  }

  /** The pass stops at tuple k, the first that is the cause of a failure. */
  ghost predicate StopsAt<B>(su: Setup<B>, queues: Queues<B>, tuples: seq<ButtonsFrame<B>>, k: nat, status: PutStatus) {
    && k <= |tuples|
    && (forall j | 0 <= j < k :: Innocent(su, InsertAll(queues, tuples[..j]), tuples[j]))
    && if k == |tuples| then status == PutSuccess
       else IsCause(su, InsertAll(queues, tuples[..k]), tuples[k], status)
  }

  lemma InsertAllFirst<B>(queues: Queues<B>, tuples: seq<ButtonsFrame<B>>, i: nat)
    requires 0 < i <= |tuples|
    ensures InsertAll(queues, tuples[..i]) == InsertAll(InsertInto(queues, tuples[0]), tuples[1..][..i - 1])
  {
    assert tuples[..i][1..] == tuples[1..][..i - 1];
  }

  lemma StopsLater<B>(su: Setup<B>, queues: Queues<B>, tuples: seq<ButtonsFrame<B>>, k: nat, status: PutStatus)
    requires tuples != [] && Innocent(su, queues, tuples[0])
    requires StopsAt(su, InsertInto(queues, tuples[0]), tuples[1..], k, status)
    ensures StopsAt(su, queues, tuples, k + 1, status)
  {
    forall j | 0 <= j < k + 1 ensures Innocent(su, InsertAll(queues, tuples[..j]), tuples[j]) {
      if j > 0 {
        InsertAllFirst(queues, tuples, j);
        assert Innocent(su, InsertAll(InsertInto(queues, tuples[0]), tuples[1..][..j - 1]), tuples[1..][j - 1]);
      }
    }
    if k + 1 < |tuples| {
      InsertAllFirst(queues, tuples, k + 1);
    }
  }

  /** What becomes of one tuple. */
  lemma TupleOutcome<B>(su: Setup<B>, queues: Queues<B>, t: ButtonsFrame<B>)
    ensures var one := PutTuple(su, queues, t);
            && one.queued == (if one.status in {PutSuccess, FailedToEncode, InternalError} then 1 else 0)
            && one.queues == (if one.queued == 1 then InsertInto(queues, t) else queues)
            && if one.status == PutSuccess then Innocent(su, queues, t) else IsCause(su, queues, t, one.status)
  {
  }

  /** A batch enters the queues up to the first tuple that is the cause of a failure,
      and including it exactly if the queue had taken it before the failure. */
  lemma {:induction false} BatchStopsAtFirstCause<B>(su: Setup<B>, queues: Queues<B>, tuples: seq<ButtonsFrame<B>>)
      returns (k: nat)
    ensures var pass := PutTuples(su, queues, tuples);
            && StopsAt(su, queues, tuples, k, pass.status)
            && pass.queued == (if pass.status == FailedToEncode || pass.status == InternalError then k + 1 else k)
            && pass.queues == InsertAll(queues, tuples[..pass.queued])
    decreases |tuples|
  {
    k := 0;
    if tuples != [] {
      var one := PutTuple(su, queues, tuples[0]);
      TupleOutcome(su, queues, tuples[0]);
      InsertAllFirst(queues, tuples, 1);
      if one.status == PutSuccess {
        var rest := PutTuples(su, one.queues, tuples[1..]);
        var j := BatchStopsAtFirstCause(su, one.queues, tuples[1..]);
        StopsLater(su, queues, tuples, j, rest.status);
        InsertAllFirst(queues, tuples, 1 + rest.queued);
        k := j + 1;
      }
    }
  }

  ghost predicate DelaysOf<B>(queues: Queues<B>, delays: Port -> int) {
    forall p <- queues :: queues[p].delay == delays(p)
  }

  /** What a successful pass wants to send is what it queued for local ports. */
  lemma {:induction false} BatchKeysAreWireKeys<B>(
      su: Setup<B>, queues: Queues<B>, delays: Port -> int, tuples: seq<ButtonsFrame<B>>)
    requires DelaysOf(queues, delays)
    requires PutTuples(su, queues, tuples).status == PutSuccess
    ensures PutTuples(su, queues, tuples).keys == WireKeys(su, delays, tuples)
    decreases |tuples|
  {
    if tuples != [] {
      TupleKey(su, queues, delays, tuples[0]);
      BatchKeysAreWireKeys(su, PutTuple(su, queues, tuples[0]).queues, delays, tuples[1..]);
    }
  }

  lemma TupleKey<B>(su: Setup<B>, queues: Queues<B>, delays: Port -> int, t: ButtonsFrame<B>)
    requires DelaysOf(queues, delays) && PutTuple(su, queues, t).status == PutSuccess
    ensures PutTuple(su, queues, t).keys == WireKey(su, delays(t.port), t)
    ensures DelaysOf(PutTuple(su, queues, t).queues, delays)
  {
  }

  /** No tuple is for a local port. */
  ghost predicate NoneLocal<B>(su: Setup<B>, tuples: seq<ButtonsFrame<B>>) {
    forall i | 0 <= i < |tuples| :: tuples[i].port !in su.localPorts
  }

  lemma {:induction false} NoKeysIffNoneLocal<B>(su: Setup<B>, queues: Queues<B>, tuples: seq<ButtonsFrame<B>>)
    requires PutTuples(su, queues, tuples).status == PutSuccess
    ensures PutTuples(su, queues, tuples).keys == [] <==> NoneLocal(su, tuples)
    decreases |tuples|
  {
    if tuples != [] {
      NoKeysIffNoneLocal(su, PutTuple(su, queues, tuples[0]).queues, tuples[1..]);
      assert NoneLocal(su, tuples) <==> tuples[0].port !in su.localPorts && NoneLocal(su, tuples[1..]) by {
        assert forall i | 0 < i < |tuples| :: tuples[i] == tuples[1..][i - 1];
      }
    }
  }

  /** The shift of every port at some moment. */
  function Shifts<B>(h: Handler<B>): Port -> int {
    p => DelayFrames(h.queues, p)
  }

  /** A put as a whole. A batch with a bad tuple returns what is wrong with the first
      one and writes nothing. A batch without a local tuple succeeds and writes nothing.
      Any other batch makes one write, and succeeds if and only if the write does. */
  lemma PutOutcomes<B>(su: Setup<B>, h: Handler<B>, tuples: seq<ButtonsFrame<B>>, writeSucceeds: bool)
      returns (k: nat)
    ensures k <= |tuples|
    ensures forall j | 0 <= j < k :: Innocent(su, InsertAll(h.queues, tuples[..j]), tuples[j])
    ensures var put := PutButtons(su, h, tuples, writeSucceeds);
            if k < |tuples| then
              && IsCause(su, InsertAll(h.queues, tuples[..k]), tuples[k], put.status)
              && var queued := if put.status == FailedToEncode || put.status == InternalError then k + 1 else k;
                 put.state == h.(queues := InsertAll(h.queues, tuples[..queued]))
            else
              && put.state.queues == InsertAll(h.queues, tuples) && put.state.incoming == h.incoming
              && if NoneLocal(su, tuples) then put.status == PutSuccess && put.state.outgoing == h.outgoing
                 else
                   && put.status == (if writeSucceeds then PutSuccess else FailedToTransmitRemote)
                   && put.state.outgoing == h.outgoing + [Write(WireKeys(su, Shifts(h), tuples), writeSucceeds)]
  {
    k := BatchStopsAtFirstCause(su, h.queues, tuples);
    if k == |tuples| {
      assert tuples[..k] == tuples;
      NoKeysIffNoneLocal(su, h.queues, tuples);
      BatchKeysAreWireKeys(su, h.queues, Shifts(h), tuples);
    }
  }

  lemma {:induction false} InsertAllOnlyAdds<B>(queues: Queues<B>, tuples: seq<ButtonsFrame<B>>)
    ensures OnlyPendingDiffers(queues, InsertAll(queues, tuples))
    ensures forall p <- queues | QueueInv(queues[p]) :: QueueInv(InsertAll(queues, tuples)[p])
    decreases |tuples|
  {
    if tuples != [] {
      InsertAllOnlyAdds(InsertInto(queues, tuples[0]), tuples[1..]);
    }
  }

  lemma PutTuplesOnlyAdds<B>(su: Setup<B>, queues: Queues<B>, tuples: seq<ButtonsFrame<B>>)
    ensures OnlyPendingDiffers(queues, PutTuples(su, queues, tuples).queues)
    ensures forall p <- queues | QueueInv(queues[p]) :: QueueInv(PutTuples(su, queues, tuples).queues[p])
  {
    var k := BatchStopsAtFirstCause(su, queues, tuples);
    InsertAllOnlyAdds(queues, tuples[..PutTuples(su, queues, tuples).queued]);
  }

  // ---------------------------------------------------------------------------
  // Starting

  /** What connecting a list of distinct ports amounts to. */
  lemma {:induction false} ConnectDescribed<B>(localPorts: set<Port>, queues: Queues<B>, ports: seq<ConnectedPort>)
    requires forall i, j | 0 <= i < j < |ports| :: ports[i].port != ports[j].port
    ensures var after := Connect(localPorts, queues, ports);
            && after.Keys == queues.Keys + PortSet(ports)
            && (forall p <- queues :: after[p] == queues[p])
            && (forall i | 0 <= i < |ports| && ports[i].port !in queues ::
                  after[ports[i].port] == NewQueue(localPorts, ports[i]))
    decreases |ports|
  {
    if ports != [] {
      var one := Emplace(localPorts, queues, ports[0]);
      ConnectDescribed(localPorts, one, ports[1..]);
      assert ports == [ports[0]] + ports[1..];
      assert PortSet(ports) == {ports[0].port} + PortSet(ports[1..]);
      forall i | 0 <= i < |ports| && ports[i].port !in queues
        ensures Connect(localPorts, queues, ports)[ports[i].port] == NewQueue(localPorts, ports[i])
      {
        if i > 0 {
          assert ports[i] == ports[1..][i - 1];
        }
      }
    }
  }

  /** The ports that the next start message connects, if there is one. */
  function Announced(script: seq<Read>): seq<ConnectedPort> {
    if script != [] && script[0].Some? && script[0].value.startGame.Some?
    then script[0].value.startGame.value.connectedPorts else []
  }

  /** The next read is a start message for this console. */
  ghost predicate StartArrives<B>(su: Setup<B>, h: Handler<B>) {
    && 0 < su.consoleId && h.incoming != [] && h.incoming[0].Some?
    && !h.incoming[0].value.stopConsole
    && h.incoming[0].value.startGame == Some(StartGame(su.consoleId, Announced(h.incoming)))
  }

  /** The rules for a configuration: at most four ports, all different, PORT_ANY not
      among them, and every local port is. */
  lemma ConfigurationRules(localPorts: set<Port>, ports: seq<ConnectedPort>)
    ensures WellFormed(localPorts, ports)
            <==> |ports| <= 4 && |PortSet(ports)| == |ports| && localPorts <= PortSet(ports) && PortAny !in PortSet(ports)
  {
    DifferentIffAsMany(ports);
  }

  lemma {:induction false} DifferentIffAsMany(ports: seq<ConnectedPort>)
    ensures |PortSet(ports)| <= |ports|
    ensures |PortSet(ports)| == |ports| <==> forall i, j | 0 <= i < j < |ports| :: ports[i].port != ports[j].port
  {
    if ports != [] {
      var first, rest := ports[0].port, ports[1..];
      DifferentIffAsMany(rest);
      assert forall i | 0 < i < |ports| :: ports[i] == rest[i - 1];
      assert PortSet(ports) == {first} + PortSet(rest);
      if first in PortSet(rest) {
        assert PortSet(ports) == PortSet(rest);
        var i :| 0 <= i < |rest| && rest[i].port == first;
        assert ports[i + 1].port == ports[0].port;
      } else {
        assert forall i | 0 <= i < |rest| :: rest[i].port in PortSet(rest);
      }
    }
  }

  /** Any start, also of a handler that has queues already. It succeeds exactly if a
      start message for the console arrives with a well-formed configuration; queues
      that were there are kept with their delays, and the other ports get new ones. A
      refused configuration leaves no queue, and every other failure leaves all. */
  lemma EveryStart<B>(su: Setup<B>, h: Handler<B>)
    ensures var start, ports := WaitForConsoleStart(su, h), Announced(h.incoming);
            && (start.ok <==> StartArrives(su, h) && WellFormed(su.localPorts, ports))
            && start.state == Handler(start.state.queues, if h.incoming == [] then [] else h.incoming[1..], h.outgoing)
            && (!start.ok ==> start.state.queues == if StartArrives(su, h) then map[] else h.queues)
            && (start.ok ==>
                  && start.state.queues.Keys == h.queues.Keys + PortSet(ports)
                  && (forall p <- h.queues :: start.state.queues[p] == h.queues[p])
                  && forall i | 0 <= i < |ports| && ports[i].port !in h.queues ::
                       start.state.queues[ports[i].port] == NewQueue(su.localPorts, ports[i]))
  {
    if WellFormed(su.localPorts, Announced(h.incoming)) {
      ConnectDescribed(su.localPorts, h.queues, Announced(h.incoming));
    }
  }

  /** A fresh handler starts exactly if a start message for its console arrives with a
      well-formed configuration. It then has one queue per listed port, shifting
      exactly for the local ones; otherwise it still has none. */
  lemma FreshStart<B>(su: Setup<B>, h: Handler<B>)
    requires h.queues == map[]
    ensures var start, ports := WaitForConsoleStart(su, h), Announced(h.incoming);
            && (start.ok <==> StartArrives(su, h) && WellFormed(su.localPorts, ports))
            && start.state == Handler(start.state.queues, if h.incoming == [] then [] else h.incoming[1..], h.outgoing)
            && (!start.ok ==> start.state.queues == map[])
            && (start.ok ==>
                  && start.state.queues.Keys == PortSet(ports)
                  && RemotePorts(su, start.state) == PortSet(ports) - su.localPorts
                  && forall i | 0 <= i < |ports| ::
                       start.state.queues[ports[i].port] == NewQueue(su.localPorts, ports[i]))
  {
    EveryStart(su, h);
  }

  /** The delays that a handler reports after its first start: the announced one for
      local ports, none for remote ports, and -1 for all others. */
  lemma ReportedDelays<B>(su: Setup<B>, h: Handler<B>, port: Port)
    requires h.queues == map[] && WaitForConsoleStart(su, h).ok
    ensures var ports, delay := Announced(h.incoming), DelayFrames(WaitForConsoleStart(su, h).state.queues, port);
            && (port !in PortSet(ports) ==> delay == -1)
            && forall i | 0 <= i < |ports| && ports[i].port == port ::
                 delay == if port in su.localPorts then ports[i].delayFrames else 0
  {
    FreshStart(su, h);
  }
}
