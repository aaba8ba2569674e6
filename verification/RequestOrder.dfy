/** The order in which a client asks for its remote ports does not matter: any two
    orders of the same requests see the same buttons, consume the same events and
    leave the same queues behind. */
module RequestOrder {
  import opened NetplayTypes
  import opened DelayLine
  import opened HandlerModel
  import opened HandlerResults
  import opened HandlerRuns

  datatype Request = Request(port: Port, frame: int)

  /** Requests are made for connected remote ports of a handler whose queues are in order. */
  ghost predicate Serves<B>(su: Setup<B>, h: Handler<B>, rs: seq<Request>) {
    && Classified(su, h.queues)
    && (forall i | 0 <= i < |rs| :: Known(su, h.queues, rs[i]))
    && forall i, j | 0 <= i < j < |rs| :: rs[i].port != rs[j].port
  }

  predicate Known<B>(su: Setup<B>, queues: Queues<B>, r: Request) {
    r.port in queues && r.port !in su.localPorts
  }

  datatype Served<B> = Refused | Served(state: Handler<B>, got: map<Port, B>)

  /** Serves the requests in order, if all of them succeed. */
  function ServeAll<B>(su: Setup<B>, h: Handler<B>, rs: seq<Request>): Served<B>
    decreases |rs|
  {
    if rs == [] then Served(h, map[])
    else
      var one := GetButtons(su, h, rs[0].port, rs[0].frame);
      if !one.status.GetSuccess? then Refused
      else match ServeAll(su, one.state, rs[1..])
        case Refused => Refused
        case Served(state, got) => Served(state, got[rs[0].port := one.status.buttons])
  }

  // ---------------------------------------------------------------------------
  // A get that is ready commutes with everything that is read

  predicate Ready<B>(queues: Queues<B>, r: Request) {
    r.port in queues && Answers(queues[r.port], r.frame)
  }

  function Take<B>(queues: Queues<B>, r: Request): Queues<B>
    requires r.port in queues
  {
    queues[r.port := AfterGet(queues[r.port], r.frame)]
  }

  function Value<B>(su: Setup<B>, queues: Queues<B>, r: Request): GetResult<B>
    requires r.port in queues
  {
    Answer(queues[r.port], r.frame, su.blank)
  }

  /** Ready before, ready afterwards, with the same buttons. */
  ghost predicate StaysReady<B>(su: Setup<B>, queues: Queues<B>, queues': Queues<B>, r: Request) {
    && Ready(queues, r) && Ready(queues', r)
    && Value(su, queues', r) == Value(su, queues, r)
  }

  lemma TakeCommutesWithKey<B>(su: Setup<B>, queues: Queues<B>, key: KeyState, r: Request)
    requires Ready(queues, r) && QueueInv(queues[r.port])
    ensures var pass := ApplyKey(su, queues, key);
            && StaysReady(su, queues, pass.queues, r)
            && QueueInv(pass.queues[r.port])
            && ApplyKey(su, Take(queues, r), key) == KeyPass(Take(pass.queues, r), pass.error)
  {
    if key.port == r.port && su.coder.Decode(key.pad).Some? {
      GetCommutesWithPut(queues[r.port], r.frame, key.frame, su.coder.Decode(key.pad).value);
    }
    var pass := ApplyKey(su, queues, key);
    assert ApplyKey(su, Take(queues, r), key).queues == Take(pass.queues, r);
  }

  lemma {:induction false} TakeCommutesWithKeys<B>(su: Setup<B>, queues: Queues<B>, keys: seq<KeyState>, r: Request)
    requires Ready(queues, r) && QueueInv(queues[r.port])
    ensures var pass := ApplyKeys(su, queues, keys);
            && StaysReady(su, queues, pass.queues, r)
            && QueueInv(pass.queues[r.port])
            && ApplyKeys(su, Take(queues, r), keys) == KeyPass(Take(pass.queues, r), pass.error)
    decreases |keys|
  {
    if keys != [] {
      TakeCommutesWithKey(su, queues, keys[0], r);
      var one := ApplyKey(su, queues, keys[0]);
      if one.error.None? {
        TakeCommutesWithKeys(su, one.queues, keys[1..], r);
      }
    }
  }

  function Read<B>(su: Setup<B>, queues: Queues<B>, script: seq<NetplayTypes.Read>, r: Request): ReadOutcome<B> {
    ReadUntilButtons(su, queues, script, r.port, r.frame)
  }

  lemma {:induction false} TakeCommutesWithRead<B>(
      su: Setup<B>, queues: Queues<B>, script: seq<NetplayTypes.Read>, other: Request, r: Request)
    requires Ready(queues, r) && QueueInv(queues[r.port])
    ensures var read := Read(su, queues, script, other);
            && StaysReady(su, queues, read.queues, r)
            && Read(su, Take(queues, r), script, other) == read.(queues := Take(read.queues, r))
    decreases |script|
  {
    if script != [] && ButtonEvent(script[0]) {
      var keys := script[0].value.keyPresses;
      TakeCommutesWithKeys(su, queues, keys, r);
      var pass := ApplyKeys(su, queues, keys);
      if pass.error.None? && !HasKey(keys, other.port, other.frame) {
        TakeCommutesWithRead(su, pass.queues, script[1..], other, r);
      }
    }
  }

  // ---------------------------------------------------------------------------
  // Two reads for frames that are both missing

  ghost predicate Missing<B>(su: Setup<B>, queues: Queues<B>, r: Request) {
    && Known(su, queues, r) && queues[r.port].delay == 0
    && Answer(queues[r.port], r.frame, su.blank) == Timeout
  }

  lemma {:induction false} NewlyPendingHasKey<B>(su: Setup<B>, queues: Queues<B>, keys: seq<KeyState>, p: Port, g: int)
    requires p in queues && g !in queues[p].buttons && g in ApplyKeys(su, queues, keys).queues[p].buttons
    ensures HasKey(keys, p, g - queues[p].delay)
    decreases |keys|
  {
    var one := ApplyKey(su, queues, keys[0]).queues;
    if g in one[p].buttons {
      assert keys[0].port == p && keys[0].frame == g - queues[p].delay;
    } else {
      NewlyPendingHasKey(su, one, keys[1..], p, g);
      HasKeyConcat([keys[0]], keys[1..], p, g - queues[p].delay);
      assert [keys[0]] + keys[1..] == keys;
    }
  }

  /** A missing frame arrives with an event exactly if the event has its key. */
  lemma ArrivesWithItsKey<B>(su: Setup<B>, queues: Queues<B>, keys: seq<KeyState>, r: Request)
    requires Missing(su, queues, r) && ApplyKeys(su, queues, keys).error.None?
    ensures var after := ApplyKeys(su, queues, keys).queues;
            if HasKey(keys, r.port, r.frame) then Ready(after, r) else Missing(su, after, r)
  {
    ApplyKeysOnlyAdds(su, queues, keys);
    if HasKey(keys, r.port, r.frame) {
      var i :| 0 <= i < |keys| && keys[i].port == r.port && keys[i].frame == r.frame;
      AppliedKeysArePending(su, queues, keys, i);
    } else if r.frame in ApplyKeys(su, queues, keys).queues[r.port].buttons {
      NewlyPendingHasKey(su, queues, keys, r.port, r.frame);
    }
  }

  /** How a successful read for r relates to one for another missing frame. */
  ghost predicate ReadsAgree<B>(
    su: Setup<B>, queues: Queues<B>, script: seq<NetplayTypes.Read>, r: Request, other: Request)
  {
    var first, swapped := Read(su, queues, script, r), Read(su, queues, script, other);
    if other.port in first.queues && Ready(first.queues, other) then
      // The other frame came along: it is found first, and then r, if that is still missing.
      && swapped.status == GotButtons
      && Ready(swapped.queues, other)
      && Value(su, first.queues, other) == Value(su, swapped.queues, other)
      && if Ready(swapped.queues, r) then swapped == first
         else Missing(su, swapped.queues, r) && Read(su, swapped.queues, swapped.incoming, r) == first
    else
      // It did not: reading for it goes past r.
      && Missing(su, first.queues, other)
      && swapped == Read(su, first.queues, first.incoming, other)
      && StaysReady(su, first.queues, swapped.queues, r)
  }

  lemma {:induction false} MissingFramesAgree<B>(
      su: Setup<B>, queues: Queues<B>, script: seq<NetplayTypes.Read>, r: Request, other: Request)
    requires Classified(su, queues)
    requires Missing(su, queues, r) && Missing(su, queues, other)
    requires Read(su, queues, script, r).status == GotButtons
    ensures Ready(Read(su, queues, script, r).queues, r)
    ensures ReadsAgree(su, queues, script, r, other)
    decreases |script|
  {
    var keys, rest := script[0].value.keyPresses, script[1..];
    var after := ApplyKeys(su, queues, keys).queues;
    KeyErrorsAreErrors(su, queues, keys);
    ApplyKeysOnlyAdds(su, queues, keys);
    ArrivesWithItsKey(su, queues, keys, r);
    ArrivesWithItsKey(su, queues, keys, other);
    if Ready(after, r) && !Ready(after, other) {
      TakeCommutesWithRead(su, after, rest, other, r);
    } else if !Ready(after, r) && Ready(after, other) {
      TakeCommutesWithRead(su, after, rest, r, other);
      ReadMakesReady(su, after, rest, r);
    } else if !Ready(after, r) && !Ready(after, other) {
      MissingFramesAgree(su, after, rest, r, other);
    }
  }

  lemma {:induction false} ReadMakesReady<B>(su: Setup<B>, queues: Queues<B>, script: seq<NetplayTypes.Read>, r: Request)
    requires Missing(su, queues, r) && Read(su, queues, script, r).status == GotButtons
    ensures Ready(Read(su, queues, script, r).queues, r)
    decreases |script|
  {
    var keys := script[0].value.keyPresses;
    KeyErrorsAreErrors(su, queues, keys);
    ArrivesWithItsKey(su, queues, keys, r);
    if !HasKey(keys, r.port, r.frame) {
      ReadMakesReady(su, ApplyKeys(su, queues, keys).queues, script[1..], r);
    }
  }

  // ---------------------------------------------------------------------------
  // Swapping two requests

  /** The handler right before the buttons for r are taken. */
  function Prepared<B>(su: Setup<B>, h: Handler<B>, r: Request): Handler<B>
    requires r.port in h.queues
  {
    if Value(su, h.queues, r) != Timeout then h
    else var read := Read(su, h.queues, h.incoming, r);
         h.(queues := read.queues, incoming := read.incoming)
  }

  lemma OneRequest<B>(su: Setup<B>, h: Handler<B>, r: Request)
    requires Classified(su, h.queues) && Known(su, h.queues, r)
    ensures var one := GetButtons(su, h, r.port, r.frame);
            && one.state.queues.Keys == h.queues.Keys
            && Classified(su, one.state.queues)
            && (one.status.GetSuccess? <==>
                  Ready(h.queues, r)
                  || (Missing(su, h.queues, r) && Read(su, h.queues, h.incoming, r).status == GotButtons))
            && (one.status.GetSuccess? ==>
                  && Ready(Prepared(su, h, r).queues, r)
                  && one.state == Prepared(su, h, r).(queues := Take(Prepared(su, h, r).queues, r))
                  && Value(su, Prepared(su, h, r).queues, r) == Success(one.status.buttons))
  {
    GetKeepsShape(su, h, r.port, r.frame);
    if Missing(su, h.queues, r) && Read(su, h.queues, h.incoming, r).status == GotButtons {
      ReadMakesReady(su, h.queues, h.incoming, r);
    }
  }

  /** Both requests succeed, in this order. */
  ghost predicate BothServed<B>(su: Setup<B>, h: Handler<B>, r: Request, s: Request) {
    var first := GetButtons(su, h, r.port, r.frame);
    first.status.GetSuccess? && GetButtons(su, first.state, s.port, s.frame).status.GetSuccess?
  }

  ghost predicate SameEitherWay<B>(su: Setup<B>, h: Handler<B>, r: Request, s: Request) {
    var r1, s1 := GetButtons(su, h, r.port, r.frame), GetButtons(su, h, s.port, s.frame);
    var s2, r2 := GetButtons(su, r1.state, s.port, s.frame), GetButtons(su, s1.state, r.port, r.frame);
    && s1.status.GetSuccess? && r2.status.GetSuccess?
    && s2.state == r2.state && s1.status == s2.status && r1.status == r2.status
  }

  lemma SwapRequests<B>(su: Setup<B>, h: Handler<B>, r: Request, s: Request)
    requires Classified(su, h.queues) && Known(su, h.queues, r) && Known(su, h.queues, s) && r.port != s.port
    requires BothServed(su, h, r, s)
    ensures SameEitherWay(su, h, r, s)
  {
    OneRequest(su, h, r);
    var r1 := GetButtons(su, h, r.port, r.frame).state;
    OneRequest(su, r1, s);
    OneRequest(su, h, s);
    var s1 := GetButtons(su, h, s.port, s.frame).state;
    OneRequest(su, s1, r);
    if Ready(h.queues, r) {
      SwapWithReady(su, h, r, s);
    } else if Ready(h.queues, s) {
      TakeCommutesWithRead(su, h.queues, h.incoming, r, s);
      SwapTakes(Prepared(su, h, r).queues, r, s);
    } else {
      SwapMissing(su, h, r, s);
    }
  }

  lemma SwapTakes<B>(queues: Queues<B>, r: Request, s: Request)
    requires r.port in queues && s.port in queues && r.port != s.port
    ensures Take(Take(queues, r), s) == Take(Take(queues, s), r)
  {
  }

  lemma SwapWithReady<B>(su: Setup<B>, h: Handler<B>, r: Request, s: Request)
    requires Classified(su, h.queues) && Known(su, h.queues, r) && Known(su, h.queues, s) && r.port != s.port
    requires Ready(h.queues, r) && BothServed(su, h, r, s)
    ensures SameEitherWay(su, h, r, s)
  {
    TakeCommutesWithRead(su, h.queues, h.incoming, s, r);
    SwapTakes(Prepared(su, h, s).queues, r, s);
  }

  lemma SwapMissing<B>(su: Setup<B>, h: Handler<B>, r: Request, s: Request)
    requires Classified(su, h.queues) && Known(su, h.queues, r) && Known(su, h.queues, s) && r.port != s.port
    requires !Ready(h.queues, r) && !Ready(h.queues, s) && BothServed(su, h, r, s)
    ensures SameEitherWay(su, h, r, s)
  {
    OneRequest(su, h, r);
    var first := Read(su, h.queues, h.incoming, r);
    ReadsASuffix(su, h.queues, h.incoming, r.port, r.frame);
    ReadMakesReady(su, h.queues, h.incoming, r);
    assert Missing(su, h.queues, s);
    MissingFramesAgree(su, h.queues, h.incoming, r, s);
    var swapped := Read(su, h.queues, h.incoming, s);
    ReadsASuffix(su, h.queues, h.incoming, s.port, s.frame);
    if Ready(first.queues, s) {
      TakeCommutesWithRead(su, swapped.queues, swapped.incoming, r, s);
    } else {
      TakeCommutesWithRead(su, first.queues, first.incoming, s, r);
    }
    SwapTakes(first.queues, r, s);
    SwapTakes(Read(su, first.queues, first.incoming, s).queues, r, s);
  }

  // ---------------------------------------------------------------------------
  // Any two orders

  lemma ServesTheOthers<B>(su: Setup<B>, h: Handler<B>, rs: seq<Request>, i: nat)
    requires Serves(su, h, rs) && i < |rs|
    ensures Serves(su, GetButtons(su, h, rs[i].port, rs[i].frame).state, rs[..i] + rs[i + 1..])
  {
    OneRequest(su, h, rs[i]);
    var rest := rs[..i] + rs[i + 1..];
    forall j | 0 <= j < |rest| ensures rest[j] == rs[if j < i then j else j + 1] {
    }
  }

  /** The requests with the one at i moved to the front. */
  function ToFront(rs: seq<Request>, i: nat): seq<Request>
    requires i < |rs|
  {
    [rs[i]] + rs[..i] + rs[i + 1..]
  }

  lemma Rearranged(rs: seq<Request>, i: nat)
    requires 0 < i < |rs|
    ensures var r, s, rest := rs[0], rs[i], rs[1..i] + rs[i + 1..];
            ToFront(rs[1..], i - 1) == [s] + rest && ToFront(rs, i) == [s, r] + rest
  {
  }

  lemma ServesTheRest<B>(su: Setup<B>, h: Handler<B>, rs: seq<Request>)
    requires Serves(su, h, rs) && rs != []
    ensures Serves(su, GetButtons(su, h, rs[0].port, rs[0].frame).state, rs[1..])
  {
    OneRequest(su, h, rs[0]);
    forall j | 0 <= j < |rs[1..]| ensures rs[1..][j] == rs[j + 1] {
    }
  }

  lemma FirstIsServed<B>(su: Setup<B>, h: Handler<B>, rs: seq<Request>)
    requires rs != [] && ServeAll(su, h, rs).Served?
    ensures var one := GetButtons(su, h, rs[0].port, rs[0].frame);
            one.status.GetSuccess? && ServeAll(su, one.state, rs[1..]).Served?
  {
  }

  lemma {:induction false} MoveToFront<B>(su: Setup<B>, h: Handler<B>, rs: seq<Request>, i: nat)
    requires Serves(su, h, rs) && i < |rs| && ServeAll(su, h, rs).Served?
    ensures ServeAll(su, h, ToFront(rs, i)) == ServeAll(su, h, rs)
    decreases i
  {
    if i == 0 {
      assert ToFront(rs, 0) == rs;
    } else {
      ServesTheRest(su, h, rs);
      FirstIsServed(su, h, rs);
      MoveToFront(su, GetButtons(su, h, rs[0].port, rs[0].frame).state, rs[1..], i - 1);
      Rearranged(rs, i);
      ThenSwap(su, h, rs, rs[i], rs[1..i] + rs[i + 1..]);
    }
  }

  /** s is already in front of the others; now r, which is served before them, swaps with it. */
  lemma ThenSwap<B>(su: Setup<B>, h: Handler<B>, rs: seq<Request>, s: Request, rest: seq<Request>)
    requires Serves(su, h, rs) && |rs| > 1 && Known(su, h.queues, s) && rs[0].port != s.port
    requires ServeAll(su, h, rs).Served?
    requires var h1 := GetButtons(su, h, rs[0].port, rs[0].frame).state;
             ServeAll(su, h1, [s] + rest) == ServeAll(su, h1, rs[1..])
    ensures ServeAll(su, h, [s, rs[0]] + rest) == ServeAll(su, h, rs)
  {
    assert ([rs[0], s] + rest)[1..] == [s] + rest;
    assert ServeAll(su, h, [rs[0], s] + rest) == ServeAll(su, h, rs);
    SwapAtFront(su, h, rs[0], s, rest);
  }

  lemma FirstTwo<B>(su: Setup<B>, h: Handler<B>, r: Request, s: Request, rest: seq<Request>)
    ensures var one := GetButtons(su, h, r.port, r.frame);
            var two := GetButtons(su, one.state, s.port, s.frame);
            ServeAll(su, h, [r, s] + rest)
            == if !one.status.GetSuccess? || !two.status.GetSuccess? then Refused
               else match ServeAll(su, two.state, rest)
                 case Refused => Refused
                 case Served(state, got) =>
                   Served(state, got[s.port := two.status.buttons][r.port := one.status.buttons])
  {
    assert ([r, s] + rest)[1..] == [s] + rest && ([s] + rest)[1..] == rest;
  }

  lemma SwapAtFront<B>(su: Setup<B>, h: Handler<B>, r: Request, s: Request, rest: seq<Request>)
    requires Classified(su, h.queues) && Known(su, h.queues, r) && Known(su, h.queues, s) && r.port != s.port
    requires ServeAll(su, h, [r, s] + rest).Served?
    ensures ServeAll(su, h, [s, r] + rest) == ServeAll(su, h, [r, s] + rest)
  {
    FirstTwo(su, h, r, s, rest);
    FirstTwo(su, h, s, r, rest);
    SwapRequests(su, h, r, s);
    var r1 := GetButtons(su, h, r.port, r.frame);
    var s2 := GetButtons(su, r1.state, s.port, s.frame);
    var got := ServeAll(su, s2.state, rest).got;
    assert got[s.port := s2.status.buttons][r.port := r1.status.buttons]
        == got[r.port := r1.status.buttons][s.port := s2.status.buttons];
  }

  lemma WithoutOne(rs: seq<Request>, rs': seq<Request>, i: nat)
    requires multiset(rs) == multiset(rs') && rs' != [] && i < |rs| && rs[i] == rs'[0]
    ensures multiset(rs[..i] + rs[i + 1..]) == multiset(rs'[1..])
  {
    assert rs == rs[..i] + [rs[i]] + rs[i + 1..];
    assert rs' == [rs'[0]] + rs'[1..];
    assert multiset(rs[..i] + rs[i + 1..]) == multiset(rs) - multiset{rs[i]};
    assert multiset(rs'[1..]) == multiset(rs') - multiset{rs'[0]};
  }

  /** If the requests succeed in one order, they succeed in every order, with the same
      buttons, the same number of events consumed and the same final queues. */
  lemma {:induction false} AnyOrder<B>(su: Setup<B>, h: Handler<B>, rs: seq<Request>, rs': seq<Request>)
    requires Serves(su, h, rs) && multiset(rs) == multiset(rs')
    requires ServeAll(su, h, rs).Served?
    ensures ServeAll(su, h, rs') == ServeAll(su, h, rs)
    decreases |rs'|
  {
    if rs' == [] {
      assert multiset(rs) == multiset{};
      assert rs == [];
    } else {
      assert rs'[0] in multiset(rs);
      var i :| 0 <= i < |rs| && rs[i] == rs'[0];
      MoveToFront(su, h, rs, i);
      var rest := rs[..i] + rs[i + 1..];
      assert ToFront(rs, i) == [rs[i]] + rest;
      assert ([rs[i]] + rest)[1..] == rest;
      WithoutOne(rs, rs', i);
      ServesTheOthers(su, h, rs, i);
      AnyOrder(su, GetButtons(su, h, rs[i].port, rs[i].frame).state, rest, rs'[1..]);
    }
  }
}
