/** Runs whose blocks carry contract calls: the stores that the VALID calls met, and
    what survives stale simulation on harmless accounts. */
module CallRuns {
  import opened Wrappers
  import opened Ledger
  import opened Simulation
  import opened WorldStates
  import opened Histories
  import opened Serializability
  import opened Contracts
  import opened Effects
  import opened Supply
  import opened SupplyModulo
  import opened Footprints
  import opened DirectCalls

  /** A call found VALID, with the version its writes carry. */
  datatype Done = Done(call: Call, version: Version)

  // ---- Traces of VALID calls ----

  /** The calls executed one after another on a store, if each is accepted. */
  function After(s: Store, done: seq<Done>): Option<Store> {
    if done == [] then Some(s)
    else
      var n := |done| - 1;
      var t := After(s, done[..n]);
      if t.None? then None else Effect(done[n].call, t.value, done[n].version)
  }

  function TotalMint(s: Store, done: seq<Done>): nat {
    if done == [] then 0
    else
      var n := |done| - 1;
      var t := After(s, done[..n]);
      TotalMint(s, done[..n]) + if t.None? then 0 else Mint(done[n].call, t.value)
  }

  lemma {:induction false} AfterPrefix(s: Store, done: seq<Done>, n: nat)
    requires n <= |done| && After(s, done).Some?
    ensures After(s, done[..n]).Some? && TotalMint(s, done[..n]) <= TotalMint(s, done)
    decreases |done|
  {
    hide Effect, Mint;
    if n < |done| {
      var front := done[..|done| - 1];
      AfterPrefix(s, front, n);
      assert front[..n] == done[..n];
    } else {
      assert done[..n] == done;
    }
  }

  /** The VALID ones among the first `n` calls of a block. */
  function BlockTrace(calls: seq<Call>, results: seq<TxApplyResult>, height: int, n: nat): seq<Done>
    requires n <= |calls| && n <= |results|
  {
    if n == 0 then []
    else
      var front := BlockTrace(calls, results, height, n - 1);
      if results[n - 1].code.Valid? then front + [Done(calls[n - 1], AtBlock(height, n - 1))] else front
  }

  ghost predicate CallBlock(e: Event, calls: seq<Call>) {
    && e.Block? && |e.origins| == |e.txs| == |calls|
    && forall i | 0 <= i < |calls| :: e.origins[i].guests == Guests(calls[i]) && Monotone(e.origins[i].at)
  }

  /** A run of blocks of calls; each fetch of each simulation may have seen a
      different and later state than the one before. */
  ghost predicate CallRun(states: seq<Store>, events: seq<Event>, calls: seq<seq<Call>>) {
    && ValidRun(states, events)
    && |calls| == |events|
    && forall i | 0 <= i < |events| :: CallBlock(events[i], calls[i])
  }

  lemma RunShape(states: seq<Store>, events: seq<Event>, calls: seq<seq<Call>>)
    requires CallRun(states, events, calls)
    ensures |states| == |events| + 1 == |calls| + 1
  {
  }

  ghost predicate CallsUse(calls: seq<seq<Call>>, used: string -> bool) {
    forall i, j | 0 <= i < |calls| && 0 <= j < |calls[i]| :: CallUses(calls[i][j], used)
  }

  ghost predicate CleanIds(calls: seq<seq<Call>>) {
    forall i, j | 0 <= i < |calls| && 0 <= j < |calls[i]| :: CleanText(IdOf(calls[i][j]))
  }

  /** Such a run in which no account in use is the treasury's name with white space
      after it, no shorter account name stands for a padded one, and escrow ids are
      clean or no two escrow keys start with one version. */
  ghost predicate HarmlessRun(states: seq<Store>, events: seq<Event>, calls: seq<seq<Call>>, used: string -> bool) {
    && CallRun(states, events, calls)
    && Suits(states[0], used) && CallsUse(calls, used)
    && (forall w | used(w) :: Harmless(w))
    && (EscrowsApart([states[0]]) || CleanIds(calls))
  }

  /** The VALID calls of the first `n` blocks, in commit order. */
  ghost function Trace(states: seq<Store>, events: seq<Event>, calls: seq<seq<Call>>, n: nat): seq<Done>
    requires CallRun(states, events, calls) && n <= |events|
  {
    if n == 0 then []
    else
      var e := events[n - 1];
      assert CallBlock(e, calls[n - 1]);
      var committed := CommitBlock(states[n - 1], e.txs, e.height);
      var front := Trace(states, events, calls, n - 1);
      if committed.Ok? && |committed.value.1| == |e.txs| then
        front + BlockTrace(calls[n - 1], committed.value.1, e.height, |e.txs|)
      else front
  }

  lemma CallRunConsistent(states: seq<Store>, events: seq<Event>, calls: seq<seq<Call>>, n: nat)
    requires CallRun(states, events, calls) && n < |events|
    ensures forall o | o in events[n].origins :: Consistent(states[..n + 1], o.at)
  {
    RunPrefix(states, events, n);
    forall x | x in events[..n] ensures !x.AdminDelete? {
      var i :| 0 <= i < n && events[i] == x;
      assert CallBlock(events[i], calls[i]);
    }
    NoDeletesKeysPersist(states[..n + 1], events[..n]);
    PersistentNoFlicker(states[..n + 1]);
    assert CallBlock(events[n], calls[n]);
  }

  /** In such a run every state suits the accounts in use. */
  lemma {:induction false} SuitsSoFar(states: seq<Store>, events: seq<Event>, calls: seq<seq<Call>>,
                                      used: string -> bool, n: nat)
    requires CallRun(states, events, calls) && Suits(states[0], used) && CallsUse(calls, used)
    requires (forall w | used(w) :: Harmless(w)) && n <= |events|
    ensures forall i | 0 <= i <= n :: Suits(states[i], used)
  {
    hide CommitBlock, Suits, HeightsGrow, CallsUse, Harmless, CallBlock;
    if n > 0 {
      SuitsSoFar(states, events, calls, used, n - 1);
      NextBlockIsWithin(states, events, calls, used, n - 1);
      assert Step(states[..n], events[n - 1], states[n]);
      BlockSuits(states[n - 1], events[n - 1], calls[n - 1], used);
    }
  }

  /** The calls of the next block stay within their scopes. */
  lemma NextBlockIsWithin(states: seq<Store>, events: seq<Event>, calls: seq<seq<Call>>, used: string -> bool, n: nat)
    requires CallRun(states, events, calls) && CallsUse(calls, used) && n < |events|
    requires forall i | 0 <= i <= n :: Suits(states[i], used)
    ensures events[n].Block? && BlockWithin(events[n].txs, calls[n], used)
  {
    hide ValidRun, CallsUse, BlockWithin;
    RunShape(states, events, calls);
    assert CallBlock(events[n], calls[n]);
    forall i | 0 <= i <= n ensures StoreUses(states[i], used) {
      assert Suits(states[i], used);
    }
    BlockIsWithin(states, events, calls, used, n);
  }

  lemma BlockSuits(s: Store, e: Event, calls: seq<Call>, used: string -> bool)
    requires e.Block? && Suits(s, used) && (forall w | used(w) :: Harmless(w))
    requires BlockWithin(e.txs, calls, used) && CommitBlock(s, e.txs, e.height).Ok?
    ensures Suits(CommitBlock(s, e.txs, e.height).value.0, used)
  {
    CommitSuits(s, e.txs, calls, used, e.height, |e.txs|);
  }

  lemma BlockIsWithin(states: seq<Store>, events: seq<Event>, calls: seq<seq<Call>>, used: string -> bool, n: nat)
    requires CallRun(states, events, calls) && CallsUse(calls, used) && n < |events|
    requires forall a | 0 <= a <= n :: StoreUses(states[a], used)
    ensures BlockWithin(events[n].txs, calls[n], used)
  {
    hide HeightsGrow, Guests, CommitBlock, TxWithin, CallUses, StoreUses;
    var h, e := states[..n + 1], events[n];
    assert Step(h, e, states[n + 1]) && CallBlock(e, calls[n]);
    forall i | 0 <= i < |e.txs| ensures TxWithin(e.txs[i], Scope(IdOf(calls[n][i]), used)) {
      assert CallUses(calls[n][i], used) && Simulated(h, e.txs[i], e.origins[i]);
      SimulatedWithin(h, e.txs[i], e.origins[i], calls[n][i], used);
    }
  }

  lemma AnyBlockIsWithin(states: seq<Store>, events: seq<Event>, calls: seq<seq<Call>>, n: nat)
    requires CallRun(states, events, calls) && n < |events|
    ensures BlockWithin(events[n].txs, calls[n], (w: string) => true)
  {
    BlockIsWithin(states, events, calls, (w: string) => true, n);
  }

  /** Whatever accounts and ids its calls use, every run keeps apart the versions of
      different escrow keys that are not from its start. */
  lemma {:induction false} ApartSinceStart(states: seq<Store>, events: seq<Event>, calls: seq<seq<Call>>, n: nat)
    requires CallRun(states, events, calls) && n <= |events|
    ensures ApartSince(states[0], states[..n + 1])
  {
    hide ApartSince, HeightsGrow, CommitBlock, AllOlder, CallBlock, Simulated, BlockWithin;
    if n == 0 {
      OneIsApart(states[0]);
      assert states[..1] == [states[0]];
    } else {
      ApartSinceStart(states, events, calls, n - 1);
      var h, e := states[..n], events[n - 1];
      assert Step(h, e, states[n]);
      IsCallBlock(states, events, calls, n - 1);
      HeightIsNew(states, events, n - 1);
      AnyBlockIsWithin(states, events, calls, n - 1);
      ApartStep(states[0], h, e, calls[n - 1]);
      assert states[..n + 1] == h + [states[n]];
    }
  }

  lemma IsCallBlock(states: seq<Store>, events: seq<Event>, calls: seq<seq<Call>>, n: nat)
    requires CallRun(states, events, calls) && n < |events|
    ensures CallBlock(events[n], calls[n]) && events[n].Block?
  {
  }

  lemma OneIsApart(s: Store)
    ensures ApartSince(s, [s])
  {
  }

  lemma ApartStep(start: Store, h: seq<Store>, e: Event, calls: seq<Call>)
    requires h != [] && e.Block? && ApartSince(start, h) && AllOlder(h, e.height)
    requires BlockWithin(e.txs, calls, (w: string) => true) && CommitBlock(Last(h), e.txs, e.height).Ok?
    ensures ApartSince(start, h + [CommitBlock(Last(h), e.txs, e.height).value.0])
  {
    CommitKeepsApart(start, h, e.txs, calls, (w: string) => true, e.height, |e.txs|);
  }

  /** So they stay apart altogether when they start apart. */
  lemma ApartSoFar(states: seq<Store>, events: seq<Event>, calls: seq<seq<Call>>, n: nat)
    requires CallRun(states, events, calls) && EscrowsApart([states[0]]) && n <= |events|
    ensures EscrowsApart(states[..n + 1])
  {
    hide ApartSince, EscrowsApart;
    ApartSinceStart(states, events, calls, n);
    ApartFromApartStart(states[0], states[..n + 1]);
  }

  // ---- What each transaction met ----

  /** A block of calls and the states of the run before it. */
  ghost predicate Joined(start: Store, h: seq<Store>, e: Event, calls: seq<Call>) {
    && h != [] && Coherent(h) && CallBlock(e, calls) && AllOlder(h, e.height) && ApartSince(start, h)
    && BlockWithin(e.txs, calls, (w: string) => true)
    && forall i | 0 <= i < |e.txs| :: Simulated(h, e.txs[i], e.origins[i]) && Consistent(h, e.origins[i].at)
  }

  lemma RunJoined(states: seq<Store>, events: seq<Event>, calls: seq<seq<Call>>, n: nat)
    requires CallRun(states, events, calls) && n < |events|
    ensures events[n].Block? && Joined(states[0], states[..n + 1], events[n], calls[n])
    ensures CommitBlock(states[n], events[n].txs, events[n].height).Ok?
    ensures states[n + 1] == CommitBlock(states[n], events[n].txs, events[n].height).value.0
    ensures AllOlder([states[0]], events[n].height)
  {
    hide ApartSince, Coherent, AllOlder, Guests, CommitBlock, Simulated, Consistent;
    var h, e := states[..n + 1], events[n];
    assert Step(h, e, states[n + 1]) && Last(h) == states[n] && CallBlock(e, calls[n]);
    RunPrefix(states, events, n);
    RunCoherent(h, events[..n]);
    HeightIsNew(states, events, n);
    ApartSinceStart(states, events, calls, n);
    AnyBlockIsWithin(states, events, calls, n);
    CallRunConsistent(states, events, calls, n);
    forall i | 0 <= i < |e.txs| ensures Consistent(h, e.origins[i].at) {
      assert e.origins[i] in e.origins;
    }
  }

  /** A transaction simulated on states of the history `h` meets the live state. */
  ghost predicate Meets(start: Store, h: seq<Store>, tx: Tx, o: Origin, c: Call, live: Store) {
    && h != [] && Coherent(h + [live]) && ApartSince(start, h + [live])
    && Simulated(h, tx, o) && o.guests == Guests(c) && Consistent(h, o.at)
    && (forall k | k in Last(h).kv :: k in live.kv)
    && TxWithin(tx, Scope(IdOf(c), (w: string) => true))
  }

  lemma JoinedMeets(start: Store, h: seq<Store>, e: Event, calls: seq<Call>, i: nat)
    requires Joined(start, h, e, calls) && i < |e.txs| && CommitUpTo(Last(h), e.txs, e.height, i).Ok?
    ensures Meets(start, h, e.txs[i], e.origins[i], calls[i], CommitUpTo(Last(h), e.txs, e.height, i).value.0)
  {
    hide ApartSince, Coherent, AllOlder, Guests, Simulated, Consistent, CommitUpTo, TxWithin;
    BlockExtends(h, e.txs, e.height, i);
    CommitKeepsApart(start, h, e.txs, calls, (w: string) => true, e.height, i);
    CoherentIsWellFormed(h);
    KeysStay(h, e.txs, e.origins, e.height, i);
  }

  lemma CoherentIsWellFormed(h: seq<Store>)
    requires Coherent(h)
    ensures AllWellFormed(h)
  {
  }

  ghost predicate IsValid(r: Result<(Store, Code), BlockError>) {
    r.Ok? && r.value.1.Valid?
  }

  /** A result of a block is the one of its transaction on the state it met. */
  lemma {:induction false} ResultOf(s: Store, txs: seq<Tx>, height: int, n: nat, i: nat)
    requires i < n <= |txs| && CommitUpTo(s, txs, height, n).Ok?
    ensures CommitUpTo(s, txs, height, i).Ok? && CommitUpTo(s, txs, height, i + 1).Ok?
    ensures var results := CommitUpTo(s, txs, height, n).value.1;
            && |results| == n
            && var committed := CommitTx(CommitUpTo(s, txs, height, i).value.0, txs[i], height, i);
               committed.Ok? && results[i].code == committed.value.1
  {
    hide CommitTx;
    if i < n - 1 {
      ResultOf(s, txs, height, n - 1, i);
    } else if i > 0 {
      ResultOf(s, txs, height, i, i - 1);
    }
  }

  /** The stores of a block: the first one, and the one after each VALID transaction. */
  function BlockStops(s: Store, txs: seq<Tx>, height: int, n: nat): (stops: seq<Store>)
    requires n <= |txs|
    ensures stops != []
  {
    if n == 0 then [s]
    else
      var front := BlockStops(s, txs, height, n - 1);
      match CommitUpTo(s, txs, height, n)
      case Ok((t, results)) => if |results| == n && results[n - 1].code.Valid? then front + [t] else front
      case Err(_) => front
  }

  /** The stores of the first `n` blocks: the start, and the one after each VALID call. */
  ghost function Stops(states: seq<Store>, events: seq<Event>, calls: seq<seq<Call>>, n: nat): (stops: seq<Store>)
    requires CallRun(states, events, calls) && n <= |events|
    ensures stops != []
  {
    if n == 0 then [states[0]]
    else
      var e := events[n - 1];
      assert CallBlock(e, calls[n - 1]);
      Stops(states, events, calls, n - 1) + BlockStops(states[n - 1], e.txs, e.height, |e.txs|)[1..]
  }

  lemma ResultsPrefix(s: Store, txs: seq<Tx>, height: int, n: nat)
    requires 0 < n <= |txs| && CommitUpTo(s, txs, height, n).Ok?
    ensures CommitUpTo(s, txs, height, n - 1).Ok?
    ensures var (results, front) := (CommitUpTo(s, txs, height, n).value.1, CommitUpTo(s, txs, height, n - 1).value.1);
            |results| == |front| + 1 && results[..|front|] == front
    ensures !CommitTx(CommitUpTo(s, txs, height, n - 1).value.0, txs[n - 1], height, n - 1).value.1.Valid? ==>
              CommitUpTo(s, txs, height, n).value.0 == CommitUpTo(s, txs, height, n - 1).value.0
  {
    var live := CommitUpTo(s, txs, height, n - 1).value.0;
    assert CommitTx(live, txs[n - 1], height, n - 1).Ok?;
    InvalidKeeps(live, txs[n - 1], height, n - 1);
    hide CommitTx;
  }

  lemma {:induction false} BlockTracePrefix(calls: seq<Call>, r1: seq<TxApplyResult>, r2: seq<TxApplyResult>,
                                            height: int,
                                            n: nat)
    requires n <= |calls| && n <= |r1| && r1 <= r2
    ensures BlockTrace(calls, r1, height, n) == BlockTrace(calls, r2, height, n)
  {
    if n > 0 {
      BlockTracePrefix(calls, r1, r2, height, n - 1);
    }
  }

  /** The stops of a block pair up with its VALID calls. */
  lemma {:induction false} BlockStopsPair(s: Store, txs: seq<Tx>, calls: seq<Call>, height: int, n: nat)
    requires n <= |txs| == |calls| && CommitUpTo(s, txs, height, n).Ok?
    ensures var (t, results) := CommitUpTo(s, txs, height, n).value;
            && |results| == n
            && |BlockStops(s, txs, height, n)| == |BlockTrace(calls, results, height, n)| + 1
            && Last(BlockStops(s, txs, height, n)) == t && BlockStops(s, txs, height, n)[0] == s
  {
    hide CommitTx;
    if n > 0 {
      ResultOf(s, txs, height, n, n - 1);
      ResultsPrefix(s, txs, height, n);
      BlockStopsPair(s, txs, calls, height, n - 1);
      BlockTracePrefix(calls, CommitUpTo(s, txs, height, n - 1).value.1, CommitUpTo(s, txs, height, n).value.1, height,
                       n - 1);
    }
  }

  lemma {:induction false} BlockStopAt(s: Store, txs: seq<Tx>, calls: seq<Call>, height: int, n: nat, j: nat)
      returns (i: nat)
    requires n <= |txs| == |calls| && CommitUpTo(s, txs, height, n).Ok? && |CommitUpTo(s, txs, height, n).value.1| == n
    requires |BlockStops(s, txs, height, n)| ==
               |BlockTrace(calls, CommitUpTo(s, txs, height, n).value.1, height, n)| + 1
    requires j < |BlockTrace(calls, CommitUpTo(s, txs, height, n).value.1, height, n)|
    ensures i < n && CommitUpTo(s, txs, height, i).Ok?
    ensures BlockTrace(calls, CommitUpTo(s, txs, height, n).value.1, height, n)[j] == Done(calls[i], AtBlock(height, i))
    ensures BlockStops(s, txs, height, n)[j] == CommitUpTo(s, txs, height, i).value.0
    ensures CommitTx(BlockStops(s, txs, height, n)[j], txs[i], height, i) ==
              Ok((BlockStops(s, txs, height, n)[j + 1], Valid))
  {
    hide CommitTx;
    ResultsPrefix(s, txs, height, n);
    ResultOf(s, txs, height, n, n - 1);
    BlockStopsPair(s, txs, calls, height, n - 1);
    var front, results := CommitUpTo(s, txs, height, n - 1).value.1, CommitUpTo(s, txs, height, n).value.1;
    BlockTracePrefix(calls, front, results, height, n - 1);
    if j < |BlockTrace(calls, front, height, n - 1)| {
      i := BlockStopAt(s, txs, calls, height, n - 1, j);
    } else {
      i := n - 1;
    }
  }

  /** The stops of a run pair up with its VALID calls, from the start to the last state. */
  lemma {:induction false} StopsPair(states: seq<Store>, events: seq<Event>, calls: seq<seq<Call>>, n: nat)
    requires CallRun(states, events, calls) && n <= |events|
    ensures var stops := Stops(states, events, calls, n);
            |stops| == |Trace(states, events, calls, n)| + 1 && stops[0] == states[0] && Last(stops) == states[n]
  {
    hide Joined, ValidRun, BlockStops, BlockTrace, CommitUpTo;
    RunShape(states, events, calls);
    if n > 0 {
      StopsPair(states, events, calls, n - 1);
      RunJoined(states, events, calls, n - 1);
      var e := events[n - 1];
      assert CallBlock(e, calls[n - 1]);
      BlockStopsPair(states[n - 1], e.txs, calls[n - 1], e.height, |e.txs|);
    }
  }

  /** `tx`, simulated on `h`, met `s`, was found VALID and left `t`. */
  ghost predicate Happened(start: Store, h: seq<Store>, tx: Tx, o: Origin, d: Done, s: Store, t: Store) {
    && Meets(start, h, tx, o, d.call, s) && d.version.AtBlock? && AllOlder([start], d.version.height)
    && CommitTx(s, tx, d.version.height, d.version.index) == Ok((t, Valid))
  }

  lemma BlockShape(e: Event, calls: seq<Call>)
    requires CallBlock(e, calls)
    ensures e.Block? && |e.origins| == |e.txs| == |calls|
  {
  }

  /** How each VALID call of a run led from one stop to the next. */
  lemma {:induction false} StopAt(states: seq<Store>, events: seq<Event>, calls: seq<seq<Call>>, n: nat, j: nat)
      returns (m: nat, tx: Tx, o: Origin)
    requires CallRun(states, events, calls) && n <= |events| && j < |Trace(states, events, calls, n)|
    ensures m < n < |states| && |Stops(states, events, calls, n)| == |Trace(states, events, calls, n)| + 1
    ensures m < |calls| && Trace(states, events, calls, n)[j].call in calls[m]
    ensures Happened(states[0], states[..m + 1], tx, o, Trace(states, events, calls, n)[j],
                     Stops(states, events, calls, n)[j], Stops(states, events, calls, n)[j + 1])
  {
    hide Joined, ValidRun, BlockStops, BlockTrace, CommitUpTo, CommitTx, AllOlder, Meets, CallBlock;
    RunShape(states, events, calls);
    StopsPair(states, events, calls, n);
    StopsPair(states, events, calls, n - 1);
    var front := Trace(states, events, calls, n - 1);
    RunJoined(states, events, calls, n - 1);
    var e := events[n - 1];
    IsCallBlock(states, events, calls, n - 1);
    BlockShape(e, calls[n - 1]);
    BlockStopsPair(states[n - 1], e.txs, calls[n - 1], e.height, |e.txs|);
    if j < |front| {
      m, tx, o := StopAt(states, events, calls, n - 1, j);
    } else {
      m := n - 1;
      var i := BlockStopAt(states[m], e.txs, calls[m], e.height, |e.txs|, j - |front|);
      tx, o := e.txs[i], e.origins[i];
      assert Last(states[..n]) == states[m];
      JoinedMeets(states[0], states[..n], e, calls[m], i);
    }
  }

  /** Each VALID call of such a run has its effect on the state it met. */
  lemma StopIsEffect(states: seq<Store>, events: seq<Event>, calls: seq<seq<Call>>, used: string -> bool, n: nat,
                     j: nat)
    requires HarmlessRun(states, events, calls, used) && n <= |events| && j < |Trace(states, events, calls, n)|
    ensures |Stops(states, events, calls, n)| == |Trace(states, events, calls, n)| + 1
    ensures var d, stops := Trace(states, events, calls, n)[j], Stops(states, events, calls, n);
            Effect(d.call, stops[j], d.version) == Some(stops[j + 1])
  {
    hide ValidRun, Suits, EscrowsApart, Effect, Trace, Stops, Meets, CommitTx, Guests, CallUses, DirectAll;
    var m, tx, o := StopAt(states, events, calls, n, j);
    var d, s := Trace(states, events, calls, n)[j], Stops(states, events, calls, n)[j];
    SuitsSoFar(states, events, calls, used, m);
    MeetsSetting(states[0], states[..m + 1], tx, o, d.call, s, used);
    MeetsGuests(states[0], states[..m + 1], tx, o, d.call, s);
    CallIsDirect(states[..m + 1], tx, o, d.call, s, d.version.height, d.version.index, used);
    CallEffect(d.call, d.version, Run(s, o.gas));
  }

  lemma MeetsSetting(start: Store, h: seq<Store>, tx: Tx, o: Origin, c: Call, live: Store, used: string -> bool)
    requires Meets(start, h, tx, o, c, live)
    requires (forall a | 0 <= a < |h| :: Suits(h[a], used)) && (forall w | used(w) :: Harmless(w))
    ensures Setting(h, o.at, live, used)
    ensures EscrowsApart([start]) ==> EscrowsApart(h + [live])
  {
    hide Suits, ApartSince, EscrowsApart, Consistent;
    if EscrowsApart([start]) {
      ApartFromApartStart(start, h + [live]);
    }
  }

  lemma MeetsGuests(start: Store, h: seq<Store>, tx: Tx, o: Origin, c: Call, live: Store)
    requires Meets(start, h, tx, o, c, live)
    ensures Simulated(h, tx, o) && o.guests == Guests(c)
  {
  }

  /** Every stop of such a run is the start state with the effects of the VALID calls so
      far applied in commit order, whatever states they had been simulated on. */
  lemma {:induction false} StopsAreEffects(states: seq<Store>, events: seq<Event>, calls: seq<seq<Call>>,
                                           used: string -> bool, n: nat, j: nat)
    requires HarmlessRun(states, events, calls, used) && n <= |events| && j <= |Trace(states, events, calls, n)|
    ensures j < |Stops(states, events, calls, n)|
    ensures After(states[0], Trace(states, events, calls, n)[..j]) == Some(Stops(states, events, calls, n)[j])
    decreases j
  {
    hide ValidRun, Suits, CallUses, EscrowsApart, Effect, Trace, Stops;
    StopsPair(states, events, calls, n);
    if j > 0 {
      var done := Trace(states, events, calls, n);
      StopsAreEffects(states, events, calls, used, n, j - 1);
      StopIsEffect(states, events, calls, used, n, j - 1);
      assert done[..j][..j - 1] == done[..j - 1];
    }
  }

  /** So is every state between blocks. */
  lemma RunIsTrace(states: seq<Store>, events: seq<Event>, calls: seq<seq<Call>>, used: string -> bool, n: nat)
    requires HarmlessRun(states, events, calls, used) && n <= |events|
    ensures After(states[0], Trace(states, events, calls, n)) == Some(states[n])
  {
    hide ValidRun, After, Trace, Stops;
    var done := Trace(states, events, calls, n);
    StopsPair(states, events, calls, n);
    StopsAreEffects(states, events, calls, used, n, |done|);
    assert done[..|done|] == done;
  }

  lemma TracePrefix(states: seq<Store>, events: seq<Event>, calls: seq<seq<Call>>, n: nat, m: nat)
    requires CallRun(states, events, calls) && n <= m <= |events|
    ensures Trace(states, events, calls, n) <= Trace(states, events, calls, m)
    decreases m
  {
    hide CommitBlock, BlockTrace, Guests, Step, HeightsGrow;
    if n < m {
      TracePrefix(states, events, calls, n, m - 1);
    }
  }

  // ---- The supply equation ----

  lemma {:induction false} TraceSupply(s: Store, done: seq<Done>)
    requires Sound(s.kv) && After(s, done).Some?
    requires Total(s.kv) + TotalMint(s, done) <= MAX_INT64
    ensures var t := After(s, done).value; Sound(t.kv) && Total(t.kv) == Total(s.kv) + TotalMint(s, done)
  {
    hide Effect, Mint, Sound, Total;
    if done != [] {
      var n := |done| - 1;
      TraceSupply(s, done[..n]);
      CallSupply(done[n].call, After(s, done[..n]).value, done[n].version);
    }
  }

  /** While the money ever minted fits int64: balances and points stay in range,
      and the supply is the start supply plus the declared mints of VALID calls. */
  lemma SupplyEquation(states: seq<Store>, events: seq<Event>, calls: seq<seq<Call>>, used: string -> bool, n: nat)
    requires HarmlessRun(states, events, calls, used) && n <= |events| && Sound(states[0].kv)
    requires Total(states[0].kv) + TotalMint(states[0], Trace(states, events, calls, |events|)) <= MAX_INT64
    ensures Sound(states[n].kv)
    ensures Total(states[n].kv) == Total(states[0].kv) + TotalMint(states[0], Trace(states, events, calls, n))
    ensures forall k | k in states[n].kv && k.Balance? :: 0 <= Amount(k, states[n].kv[k]) <= Total(states[n].kv)
  {
    hide After, TotalMint, Trace, Step, HeightsGrow, Suits, CallUses;
    var done, all := Trace(states, events, calls, n), Trace(states, events, calls, |events|);
    RunIsTrace(states, events, calls, used, n);
    RunIsTrace(states, events, calls, used, |events|);
    TracePrefix(states, events, calls, n, |events|);
    AfterPrefix(states[0], all, |done|);
    assert all[..|done|] == done;
    TraceSupply(states[0], done);
    forall k | k in states[n].kv && k.Balance? ensures 0 <= Amount(k, states[n].kv[k]) <= Total(states[n].kv) {
      PartOfTotal(states[n].kv, k);
    }
  }

  lemma {:induction false} TraceGrows(s: Store, done: seq<Done>)
    requires Typed(s.kv) && After(s, done).Some?
    ensures Grown(s, After(s, done).value, TotalMint(s, done))
  {
    hide Effect, Mint, Typed, Grown;
    if done == [] {
      NothingGrows(s);
    } else {
      var n := |done| - 1;
      TraceGrows(s, done[..n]);
      var t := After(s, done[..n]).value;
      GrownIsTyped(s, t, TotalMint(s, done[..n]));
      CallGrows(done[n].call, t, done[n].version);
      GrownTwice(s, t, After(s, done).value, TotalMint(s, done[..n]), Mint(done[n].call, t));
    }
  }

  /** Without any bound on the money: the supply counts modulo 2^64. */
  lemma SupplyEquationModulo(states: seq<Store>, events: seq<Event>, calls: seq<seq<Call>>, used: string -> bool,
                             n: nat)
    requires HarmlessRun(states, events, calls, used) && n <= |events| && Typed(states[0].kv)
    ensures Typed(states[n].kv)
    ensures Congruent(Total(states[n].kv), Total(states[0].kv) + TotalMint(states[0], Trace(states, events, calls, n)))
  {
    hide After, TotalMint, Trace, Step, HeightsGrow, Suits, CallUses;
    RunIsTrace(states, events, calls, used, n);
    TraceGrows(states[0], Trace(states, events, calls, n));
  }

  // ---- Escrow ----

  predicate IsLock(c: Call, id: string) {
    c.Escrow? && c.escrow.Some? && c.escrow.value.id == id && c.escrow.value.action == "lock"
  }

  predicate IsPayOut(c: Call, id: string) {
    c.Escrow? && c.escrow.Some? && c.escrow.value.id == id && c.escrow.value.action != "lock"
  }

  lemma EscrowIsEffect(c: Call, s: Store, version: Version)
    requires c.Escrow? && c.escrow.Some? && Effect(c, s, version).Some?
    ensures Effect(c, s, version) == EscrowEffect(s, version, c.raw, c.escrow.value) && Verify(c)
  {
    hide EscrowEffect;
  }

  lemma OwnEscrow(raw: string, p: EscrowFields, s: Store, version: Version)
    requires Verify(Escrow(raw, Some(p))) && EscrowEffect(s, version, raw, p).Some?
    ensures var t := EscrowEffect(s, version, raw, p).value;
            if p.action == "lock" then
              EscrowAt(s, p.id).None? && EscrowAt(t, p.id) == Some(EscrowRec(p.from, p.to, p.amount))
            else EscrowAt(s, p.id).Some? && EscrowAt(t, p.id).None?
  {
    hide IntAt, Wrap64, ByteLen;
  }

  lemma SameObserved(s: Store, t: Store, id: string)
    requires t.Observe(EscrowOf(id)) == s.Observe(EscrowOf(id))
    ensures EscrowAt(t, id) == EscrowAt(s, id)
  {
  }

  /** An accepted call changes the escrow of `id` only by locking it when it is
      open, or by paying it out when it is locked. */
  lemma EscrowTransition(c: Call, s: Store, version: Version, id: string)
    requires Effect(c, s, version).Some?
    ensures var t := Effect(c, s, version).value;
            if IsLock(c, id) then
              && EscrowAt(s, id).None?
              && EscrowAt(t, id) == Some(EscrowRec(c.escrow.value.from, c.escrow.value.to, c.escrow.value.amount))
            else if IsPayOut(c, id) then EscrowAt(s, id).Some? && EscrowAt(t, id).None?
            else EscrowAt(t, id) == EscrowAt(s, id)
  {
    hide Effect, EscrowEffect, EscrowAt;
    if IsLock(c, id) || IsPayOut(c, id) {
      EscrowIsEffect(c, s, version);
      OwnEscrow(c.raw, c.escrow.value, s, version);
    } else {
      OnlyOwnEscrow(c, s, version, id);
      SameObserved(s, Effect(c, s, version).value, id);
    }
  }

  lemma PaidKeepsEscrow(s: Store, version: Version, p: TransferFields, f: int64, t: int64, y: int64, k: Key)
    requires k.EscrowOf?
    ensures PaidStore(s, version, p, f, t, y).Observe(k) == s.Observe(k)
  {
    hide CalcFee, Wrap64;
  }

  lemma PointsKeepEscrow(s: Store, version: Version, raw: string, p: TransferFields, pts: int64, k: Key)
    requires k.EscrowOf? && PointsEffect(s, version, raw, p, pts).Some?
    ensures PointsEffect(s, version, raw, p, pts).value.Observe(k) == s.Observe(k)
  {
    hide EarnedPoints, Redeem, Wrap64, IntAt;
  }

  lemma LoyaltyKeepsEscrow(s: Store, version: Version, raw: string, p: TransferFields, k: Key)
    requires k.EscrowOf? && LoyaltyEffect(s, version, raw, p).Some?
    ensures LoyaltyEffect(s, version, raw, p).value.Observe(k) == s.Observe(k)
  {
    hide PaidStore, PointsEffect, IntAt;
    var f, t, y := IntAt(s, Balance(p.from)), IntAt(s, Balance(p.to)), IntAt(s, Balance(TREASURY));
    PaidKeepsEscrow(s, version, p, f.value, t.value, y.value, k);
    var paid := PaidStore(s, version, p, f.value, t.value, y.value);
    PointsKeepEscrow(paid, version, raw, p, IntAt(paid, Loyalty(p.from)).value, k);
  }

  lemma MoveKeepsEscrow(s: Store, version: Version, from: string, to: string, debit: int64, credit: int64, receipt: Key,
                        raw: string, k: Key)
    requires k.EscrowOf? && !receipt.EscrowOf? && MoveEffect(s, version, from, to, debit, credit, receipt, raw).Some?
    ensures MoveEffect(s, version, from, to, debit, credit, receipt, raw).value.Observe(k) == s.Observe(k)
  {
    hide IntAt, Wrap64;
  }

  lemma OnlyOwnEscrow(c: Call, s: Store, version: Version, id: string)
    requires Effect(c, s, version).Some?
    requires !(c.Escrow? && c.escrow.Some? && c.escrow.value.id == id)
    ensures Effect(c, s, version).value.Observe(EscrowOf(id)) == s.Observe(EscrowOf(id))
  {
    hide LoyaltyEffect, MoveEffect, IntAt, Wrap64, EscrowAt, DiscountAt;
    var k := EscrowOf(id);
    match c {
      case Transfer(raw, Some(p)) =>
        MoveKeepsEscrow(s, version, p.from, p.to, DiscountedDebit(p.amount, DiscountAt(s, p.from)), p.amount,
                        TransferReceipt(p.to), raw, k);
      case LoyaltyXfer(raw, Some(p)) => LoyaltyKeepsEscrow(s, version, raw, p, k);
      case DoubleCredit(raw, Some(p)) =>
        MoveKeepsEscrow(s, version, p.from, p.to, p.amount, Wrap64(p.amount * 2), DoubleReceipt(p.to), raw, k);
      case QtyCredit(raw, Some(p)) =>
        MoveKeepsEscrow(s, version, p.from, p.to, p.amount, Wrap64(p.amount * p.quantity), QtyReceipt(p.to), raw, k);
      case Escrow(_, _) =>
    }
  }

  /** A locked escrow keeps its record until it is paid out. */
  lemma {:induction false} StaysLocked(s: Store, done: seq<Done>, id: string, l: nat, j: nat)
    requires After(s, done).Some? && l < j <= |done| && IsLock(done[l].call, id)
    requires forall m | l < m < j :: !IsPayOut(done[m].call, id)
    ensures After(s, done[..j]).Some?
    ensures var p := done[l].call.escrow.value;
            EscrowAt(After(s, done[..j]).value, id) == Some(EscrowRec(p.from, p.to, p.amount))
    decreases j
  {
    hide Effect, EscrowAt;
    AfterPrefix(s, done, j);
    assert done[..j][..j - 1] == done[..j - 1];
    if l < j - 1 {
      StaysLocked(s, done, id, l, j - 1);
    }
    EscrowTransition(done[j - 1].call, After(s, done[..j - 1]).value, done[j - 1].version, id);
  }

  /** The party an accepted payout of a locked escrow credits. */
  function Payee(pay: EscrowFields, lock: EscrowFields): string {
    if pay.action == "release" then lock.to else lock.from
  }

  lemma PayOutKeepsOthers(s: Store, version: Version, raw: string, id: string, to: string, amount: int, b: Key)
    requires b.Balance? && b != Balance(to) && PayOutEffect(s, version, raw, id, to, amount).Some?
    ensures PayOutEffect(s, version, raw, id, to, amount).value.Observe(b) == s.Observe(b)
  {
  }

  lemma PayOutCredits(s: Store, version: Version, raw: string, id: string, to: string, amount: int)
    requires Sound(s.kv) && Total(s.kv) <= MAX_INT64
    requires amount > 0 && AmountAt(s.kv, EscrowOf(id)) == amount
    ensures var e := PayOutEffect(s, version, raw, id, to, amount);
            e.Some? && AmountAt(e.value.kv, Balance(to)) == AmountAt(s.kv, Balance(to)) + amount
  {
    hide Sound, Total;
    PayOutShape(s, version, raw, id, to, amount);
    var t := Released(s, EscrowOf(id), Balance(to), amount, version);
  }

  /** One accepted payout of a live escrow. */
  lemma PayOutStep(c: Call, s: Store, version: Version, id: string, lock: EscrowFields)
    requires Sound(s.kv) && Total(s.kv) <= MAX_INT64
    requires IsPayOut(c, id) && Effect(c, s, version).Some?
    requires EscrowAt(s, id) == Some(EscrowRec(lock.from, lock.to, lock.amount))
    ensures var pay, after := c.escrow.value, Effect(c, s, version).value;
            var k := Balance(Payee(pay, lock));
            && AmountAt(after.kv, k) == AmountAt(s.kv, k) + lock.amount
            && (forall b: Key | b.Balance? && b != k :: after.Observe(b) == s.Observe(b))
            && (pay.from == lock.from || (pay.action == "release" && pay.from == lock.to))
  {
    var pay := c.escrow.value;
    var to := Payee(pay, lock);
    assert AmountAt(s.kv, EscrowOf(id)) == lock.amount;
    assert Effect(c, s, version) == PayOutEffect(s, version, c.raw, id, to, lock.amount);
    hide Effect, EscrowAt, PayOutEffect;
    PayOutCredits(s, version, c.raw, id, to, lock.amount);
    forall b: Key | b.Balance? && b != Balance(to) ensures Effect(c, s, version).value.Observe(b) == s.Observe(b) {
      PayOutKeepsOthers(s, version, c.raw, id, to, lock.amount, b);
    }
  }

  /** A payout credits exactly the amount of the lock it answers, to the recipient
      on release by either party and to the sender on refund by the sender. */
  lemma TracePaysLockedAmount(s: Store, done: seq<Done>, id: string, l: nat, j: nat)
    requires Sound(s.kv) && After(s, done).Some? && l < j < |done|
    requires Total(s.kv) + TotalMint(s, done) <= MAX_INT64
    requires IsLock(done[l].call, id) && IsPayOut(done[j].call, id)
    requires forall m | l < m < j :: !IsPayOut(done[m].call, id)
    ensures After(s, done[..j]).Some? && After(s, done[..j + 1]).Some?
    ensures var lock, pay := done[l].call.escrow.value, done[j].call.escrow.value;
            var before, after := After(s, done[..j]).value, After(s, done[..j + 1]).value;
            var k := Balance(Payee(pay, lock));
            && AmountAt(after.kv, k) == AmountAt(before.kv, k) + lock.amount
            && (forall b: Key | b.Balance? && b != k :: after.Observe(b) == before.Observe(b))
            && (pay.from == lock.from || (pay.action == "release" && pay.from == lock.to))
  {
    hide Effect, Sound, Total, AmountAt, EscrowAt, TotalMint;
    AfterPrefix(s, done, j);
    AfterPrefix(s, done, j + 1);
    assert done[..j + 1][..j] == done[..j];
    StaysLocked(s, done, id, l, j);
    TraceSupply(s, done[..j]);
    PayOutStep(done[j].call, After(s, done[..j]).value, done[j].version, id, done[l].call.escrow.value);
  }

  /** Along every run, a payout of an escrow credits exactly what the lock it
      answers took, and debits nobody. */
  lemma HarmlessPaysLockedAmount(states: seq<Store>, events: seq<Event>, calls: seq<seq<Call>>, used: string -> bool,
                               id: string, l: nat, j: nat)
    requires HarmlessRun(states, events, calls, used) && Sound(states[0].kv)
    requires Total(states[0].kv) + TotalMint(states[0], Trace(states, events, calls, |events|)) <= MAX_INT64
    requires l < j < |Trace(states, events, calls, |events|)|
    requires var done := Trace(states, events, calls, |events|);
             && IsLock(done[l].call, id) && IsPayOut(done[j].call, id)
             && forall m | l < m < j :: !IsPayOut(done[m].call, id)
    ensures var done := Trace(states, events, calls, |events|);
            var before, after := After(states[0], done[..j]), After(states[0], done[..j + 1]);
            var lock, pay := done[l].call.escrow.value, done[j].call.escrow.value;
            var k := Balance(Payee(pay, lock));
            && before.Some? && after.Some?
            && AmountAt(after.value.kv, k) == AmountAt(before.value.kv, k) + lock.amount
            && (forall b: Key | b.Balance? && b != k :: after.value.Observe(b) == before.value.Observe(b))
  {
    hide After, Trace, TotalMint, Sound, Total, AmountAt, Payee;
    RunIsTrace(states, events, calls, used, |events|);
    TracePaysLockedAmount(states[0], Trace(states, events, calls, |events|), id, l, j);
  }
}
