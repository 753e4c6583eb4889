/**
 A reader goroutine and a collector sharing one locked buffer: the gRPC background stream and the WebSocket
 connection. Each locked section is one atomic step, so a run is any sequence of reader steps and collector polls.
 */
module BackgroundStream {
  import opened Wrappers

  /** Buffered WebSocket messages beyond this many are discarded on arrival. */
  const WS_MESSAGE_BUFFER_CAP: nat := 1000

  /** The two transports differ only in the cap. */
  datatype Transport = GRPC | WebSocket

  predicate HasRoom(t: Transport, buffer: seq<string>) {
    t == GRPC || |buffer| < WS_MESSAGE_BUFFER_CAP
  }

  datatype Arrival = Message(body: string) | ReadError(reason: string)

  datatype Action = Reader(arrival: Arrival) | Poll(want: nat)

  /** Shared state, and the history the theorems speak about: what was taken, what was discarded at which arrival. */
  datatype Shared = Shared(messages: seq<string>, err: Option<string>, arrived: seq<string>,
                           lost: set<nat>, taken: seq<string>)

  const OPENED := Shared([], None, [], {}, [])

  /** The reader's locked section; after an error the reader has returned. */
  function Read(t: Transport, s: Shared, a: Arrival): Shared {
    if s.err.Some? then s
    else match a
      case ReadError(reason) => s.(err := Some(reason))
      case Message(body) =>
        if HasRoom(t, s.messages) then s.(messages := s.messages + [body], arrived := s.arrived + [body])
        else s.(arrived := s.arrived + [body], lost := s.lost + {|s.arrived|})
  }

  function Min(a: nat, b: nat): nat {
    if a < b then a else b
  }

  function Prefix(messages: seq<string>, n: nat): seq<string> {
    messages[..Min(|messages|, n)]
  }

  /** What a poll that still wants this many messages takes. */
  function Taken(s: Shared, want: nat): seq<string> {
    Prefix(s.messages, want)
  }

  /** The collector's locked section. */
  function Polled(s: Shared, want: nat): Shared {
    s.(messages := s.messages[Min(|s.messages|, want)..], taken := s.taken + Taken(s, want))
  }

  function Next(t: Transport, s: Shared, a: Action): Shared {
    match a
    case Reader(arrival) => Read(t, s, arrival)
    case Poll(want) => Polled(s, want)
  }

  function RunSchedule(t: Transport, s: Shared, schedule: seq<Action>): Shared {
    if schedule == [] then s
    else Next(t, RunSchedule(t, s, schedule[..|schedule| - 1]), schedule[|schedule| - 1])
  }

  /** The arrivals that were not discarded, in order. */
  function Kept(arrived: seq<string>, lost: set<nat>): seq<string> {
    if arrived == [] then []
    else
      var n := |arrived| - 1;
      Kept(arrived[..n], lost) + if n in lost then [] else [arrived[n]]
  }

  lemma {:induction false} KeptIgnoresLater(arrived: seq<string>, lost: set<nat>, n: nat)
    requires n >= |arrived|
    ensures Kept(arrived, lost + {n}) == Kept(arrived, lost)
  {
    if arrived != [] {
      KeptIgnoresLater(arrived[..|arrived| - 1], lost, n);
    }
  }

  lemma {:induction false} NothingLost(arrived: seq<string>)
    ensures Kept(arrived, {}) == arrived
  {
    if arrived != [] {
      NothingLost(arrived[..|arrived| - 1]);
      assert arrived == arrived[..|arrived| - 1] + [arrived[|arrived| - 1]];
    }
  }

  /** Taken then buffered is what arrived and was kept; only a full WebSocket buffer loses anything. */
  ghost predicate Conserved(t: Transport, s: Shared) {
    && s.taken + s.messages == Kept(s.arrived, s.lost)
    && (forall i :: i in s.lost ==> i < |s.arrived|)
    && (t == GRPC ==> s.lost == {})
    && (t == WebSocket ==> |s.messages| <= WS_MESSAGE_BUFFER_CAP)
  }

  lemma StepConserves(t: Transport, s: Shared, a: Action)
    requires Conserved(t, s)
    ensures Conserved(t, Next(t, s, a))
  {
    var n := Next(t, s, a);
    match a {
      case Poll(want) =>
        assert s.messages == Taken(s, want) + n.messages;
        assert n.taken + n.messages == s.taken + s.messages;
      case Reader(arrival) =>
        if n.arrived != s.arrived {
          assert n.arrived[..|s.arrived|] == s.arrived;
          KeptIgnoresLater(s.arrived, s.lost, |s.arrived|);
          assert s.taken + (s.messages + [arrival.body]) == (s.taken + s.messages) + [arrival.body];
        }
    }
  }

  /** Over every interleaving nothing is reordered, repeated or lost, except what reached a full WebSocket buffer. */
  lemma {:induction false} EveryInterleavingConserves(t: Transport, schedule: seq<Action>)
    ensures Conserved(t, RunSchedule(t, OPENED, schedule))
    ensures var s := RunSchedule(t, OPENED, schedule); t == GRPC ==> s.taken + s.messages == s.arrived
  {
    if schedule != [] {
      EveryInterleavingConserves(t, schedule[..|schedule| - 1]);
      StepConserves(t, RunSchedule(t, OPENED, schedule[..|schedule| - 1]), schedule[|schedule| - 1]);
    }
    NothingLost(RunSchedule(t, OPENED, schedule).arrived);
  }

  /** The k-th step of the schedule is the i-th arrival, and it meets a full WebSocket buffer. */
  ghost predicate MeetsFullBuffer(t: Transport, schedule: seq<Action>, k: nat, i: nat)
    requires k < |schedule|
  {
    var s := RunSchedule(t, OPENED, schedule[..k]);
    && schedule[k].Reader? && schedule[k].arrival.Message? && s.err.None? && |s.arrived| == i
    && t == WebSocket && |s.messages| == WS_MESSAGE_BUFFER_CAP
  }

  ghost predicate MetFullBuffer(t: Transport, schedule: seq<Action>, i: nat) {
    exists k :: 0 <= k < |schedule| && MeetsFullBuffer(t, schedule, k, i)
  }

  lemma MetOneMore(t: Transport, schedule: seq<Action>, i: nat)
    requires schedule != []
    ensures var init := schedule[..|schedule| - 1];
            MetFullBuffer(t, schedule, i) <==> MetFullBuffer(t, init, i) || MeetsFullBuffer(t, schedule, |init|, i)
  {
    var init := schedule[..|schedule| - 1];
    forall k | 0 <= k < |init| ensures MeetsFullBuffer(t, schedule, k, i) <==> MeetsFullBuffer(t, init, k, i) {
      assert schedule[..k] == init[..k];
    }
    if MetFullBuffer(t, init, i) {
      var k :| 0 <= k < |init| && MeetsFullBuffer(t, init, k, i);
      assert MeetsFullBuffer(t, schedule, k, i);
    }
  }

  /** After any schedule exactly those arrivals are lost that met a full WebSocket buffer. */
  lemma {:induction false} LostIff(t: Transport, schedule: seq<Action>, i: nat)
    ensures i in RunSchedule(t, OPENED, schedule).lost <==> MetFullBuffer(t, schedule, i)
  {
    if schedule != [] {
      var init := schedule[..|schedule| - 1];
      LostIff(t, init, i);
      EveryInterleavingConserves(t, init);
      MetOneMore(t, schedule, i);
    }
  }

  /** Once the stream has failed and its buffer is empty, no schedule brings anything back. */
  lemma {:induction false} DrainedForGood(t: Transport, s: Shared, schedule: seq<Action>)
    requires s.err.Some? && s.messages == []
    ensures RunSchedule(t, s, schedule) == s
  {
    if schedule != [] {
      DrainedForGood(t, s, schedule[..|schedule| - 1]);
      assert s.taken + [] == s.taken;
    }
  }

  lemma {:induction false} ScheduleConcat(t: Transport, s: Shared, a: seq<Action>, b: seq<Action>)
    ensures RunSchedule(t, s, a + b) == RunSchedule(t, RunSchedule(t, s, a), b)
  {
    if b == [] {
      assert a + b == a;
    } else {
      assert (a + b)[..|a + b| - 1] == a + b[..|b| - 1];
      ScheduleConcat(t, s, a, b[..|b| - 1]);
    }
  }

  datatype StopReason = GotEnough | StreamFailed | TimedOut

  function AsActions(arrivals: seq<Arrival>): seq<Action> {
    seq(|arrivals|, i requires 0 <= i < |arrivals| => Reader(arrivals[i]))
  }

  // ---- what a collector is offered, told by the arrivals alone ----

  /** The messages before the first error. */
  function Heard(arrivals: seq<Arrival>): seq<string> {
    if arrivals == [] || arrivals[0].ReadError? then [] else [arrivals[0].body] + Heard(arrivals[1..])
  }

  predicate Fails(arrivals: seq<Arrival>) {
    arrivals != [] && (arrivals[0].ReadError? || Fails(arrivals[1..]))
  }

  /** Of messages arriving while held are buffered, those that fit: all over gRPC, up to 1000 over WebSocket. */
  function Fitting(t: Transport, held: nat, arriving: seq<string>): seq<string> {
    if t == GRPC || held + |arriving| <= 1000 then arriving
    else if held >= 1000 then []
    else arriving[..1000 - held]
  }

  /** The stream has failed by the end of the first k batches. */
  predicate Failed(s: Shared, batches: seq<seq<Arrival>>, k: nat)
    requires k <= |batches|
  {
    if k == 0 then s.err.Some? else Failed(s, batches, k - 1) || Fails(batches[k - 1])
  }

  /** What a collector that drains the buffer after every batch has been offered by the end of the first k. */
  function Offered(t: Transport, s: Shared, batches: seq<seq<Arrival>>, k: nat): seq<string>
    requires k <= |batches|
  {
    if k == 0 then s.messages
    else
      var held := if k == 1 then |s.messages| else 0;
      Offered(t, s, batches, k - 1)
      + if Failed(s, batches, k - 1) then [] else Fitting(t, held, Heard(batches[k - 1]))
  }

  /** After a failure nothing is added. */
  lemma {:induction false} NothingOffered(t: Transport, s: Shared, batches: seq<seq<Arrival>>, k: nat, m: nat)
    requires k <= m <= |batches| && Failed(s, batches, k)
    ensures Failed(s, batches, m) && Offered(t, s, batches, m) == Offered(t, s, batches, k)
  {
    if k < m {
      NothingOffered(t, s, batches, k, m - 1);
      assert Offered(t, s, batches, m - 1) + [] == Offered(t, s, batches, m - 1);
    }
  }

  /** Later batches only add. */
  lemma {:induction false} OfferedGrows(t: Transport, s: Shared, batches: seq<seq<Arrival>>, k: nat, m: nat)
    requires k <= m <= |batches|
    ensures Offered(t, s, batches, k) <= Offered(t, s, batches, m)
  {
    if k < m {
      OfferedGrows(t, s, batches, k, m - 1);
      var more := if Failed(s, batches, m - 1) then []
                  else Fitting(t, if m == 1 then |s.messages| else 0, Heard(batches[m - 1]));
      assert Offered(t, s, batches, m) == Offered(t, s, batches, m - 1) + more;
    }
  }

  lemma FittingFirst(t: Transport, messages: seq<string>, m: string, rest: seq<string>)
    ensures messages + Fitting(t, |messages|, [m] + rest) ==
        if t == GRPC || |messages| < 1000 then (messages + [m]) + Fitting(t, |messages| + 1, rest)
        else messages + Fitting(t, |messages|, rest)
  {
  }

  /** One batch read: what fits is appended, and an error stays. */
  lemma {:induction false} BatchRead(t: Transport, s: Shared, arrivals: seq<Arrival>)
    requires s.err.None?
    ensures var r := RunSchedule(t, s, AsActions(arrivals));
            && r.messages == s.messages + Fitting(t, |s.messages|, Heard(arrivals))
            && (r.err.Some? <==> Fails(arrivals))
    decreases |arrivals|
  {
    if arrivals != [] {
      var a, rest := arrivals[0], arrivals[1..];
      BatchFirst(t, s, arrivals);
      if a.ReadError? {
        NothingAfterError(t, Read(t, s, a), rest);
      } else {
        FittingFirst(t, s.messages, a.body, Heard(rest));
        BatchRead(t, Read(t, s, a), rest);
      }
    }
  }

  lemma BatchFirst(t: Transport, s: Shared, arrivals: seq<Arrival>)
    requires arrivals != []
    ensures RunSchedule(t, s, AsActions(arrivals)) == RunSchedule(t, Read(t, s, arrivals[0]), AsActions(arrivals[1..]))
  {
    assert AsActions(arrivals) == [Reader(arrivals[0])] + AsActions(arrivals[1..]);
    ScheduleConcat(t, s, [Reader(arrivals[0])], AsActions(arrivals[1..]));
    assert [Reader(arrivals[0])][..0] == [];
  }

  lemma {:induction false} NothingAfterError(t: Transport, s: Shared, arrivals: seq<Arrival>)
    requires s.err.Some?
    ensures RunSchedule(t, s, AsActions(arrivals)) == s
    decreases |arrivals|
  {
    if arrivals != [] {
      BatchFirst(t, s, arrivals);
      NothingAfterError(t, s, arrivals[1..]);
    }
  }

  /** Batch after batch, each followed by one poll. */
  function Polling(meanwhile: seq<seq<Arrival>>, wants: seq<nat>): seq<Action>
    requires |wants| <= |meanwhile|
  {
    if wants == [] then []
    else
      var k := |wants| - 1;
      Polling(meanwhile, wants[..k]) + (AsActions(meanwhile[k]) + [Poll(wants[k])])
  }

  lemma PollingStep(t: Transport, s: Shared, meanwhile: seq<seq<Arrival>>, wants: seq<nat>, want: nat)
    requires |wants| < |meanwhile|
    ensures RunSchedule(t, s, Polling(meanwhile, wants + [want])) ==
        RunSchedule(t, RunSchedule(t, s, Polling(meanwhile, wants)), AsActions(meanwhile[|wants|]) + [Poll(want)])
  {
    assert (wants + [want])[..|wants|] == wants;
    ScheduleConcat(t, s, Polling(meanwhile, wants), AsActions(meanwhile[|wants|]) + [Poll(want)]);
  }

  /** What a poll after a batch sees. */
  function Seen(t: Transport, s: Shared, batch: seq<Arrival>): seq<string> {
    s.messages + if s.err.Some? then [] else Fitting(t, |s.messages|, Heard(batch))
  }

  /** The first k batches offer too little, and no error. */
  ghost predicate MustWait(t: Transport, s: Shared, meanwhile: seq<seq<Arrival>>, n: nat, k: nat)
    requires k <= |meanwhile|
  {
    |Offered(t, s, meanwhile, k)| < n && !Failed(s, meanwhile, k)
  }

  /** Before poll i the collector has all there was so far and still needs more. */
  ghost predicate Midway(t: Transport, s: Shared, meanwhile: seq<seq<Arrival>>, n: nat, i: nat, now: Shared,
                         collected: seq<string>)
  {
    && i <= |meanwhile| && |collected| < n
    && (if i == 0 then now == s && collected == []
        else now.messages == [] && now.err.None? && collected == Offered(t, s, meanwhile, i)
             && !Failed(s, meanwhile, i))
  }

  /** The outcome of a collect: the first n of all on offer, as many polls as that takes, and why it stopped. */
  ghost predicate Gathers(t: Transport, s: Shared, meanwhile: seq<seq<Arrival>>, n: nat, collected: seq<string>,
                          reason: StopReason, polls: nat)
  {
    var all := Offered(t, s, meanwhile, |meanwhile|);
    && collected == Prefix(all, n)
    && reason == (if |all| >= n then GotEnough
                  else if Failed(s, meanwhile, |meanwhile|) then StreamFailed else TimedOut)
    && 1 <= polls <= |meanwhile| && (reason == TimedOut ==> polls == |meanwhile|)
    && (polls > 1 ==> MustWait(t, s, meanwhile, n, polls - 1))
  }

  lemma BatchOffered(t: Transport, s: Shared, meanwhile: seq<seq<Arrival>>, n: nat, i: nat, now: Shared,
                     collected: seq<string>)
    requires i < |meanwhile| && Midway(t, s, meanwhile, n, i, now, collected)
    ensures Offered(t, s, meanwhile, i + 1) == collected + Seen(t, now, meanwhile[i])
    ensures Failed(s, meanwhile, i + 1) <==> now.err.Some? || Fails(meanwhile[i])
  {
    assert i == 0 ==> Offered(t, s, meanwhile, 0) == s.messages && (Failed(s, meanwhile, 0) <==> s.err.Some?);
  }

  /** A poll that gets all that is still wanted settles the collect. */
  lemma PollSuffices(t: Transport, s: Shared, meanwhile: seq<seq<Arrival>>, n: nat, i: nat, now: Shared,
                     before: seq<string>)
    requires i < |meanwhile| && Midway(t, s, meanwhile, n, i, now, before)
    requires |Seen(t, now, meanwhile[i])| >= n - |before|
    ensures Gathers(t, s, meanwhile, n, before + Prefix(Seen(t, now, meanwhile[i]), n - |before|), GotEnough, i + 1)
  {
    BatchOffered(t, s, meanwhile, n, i, now, before);
    OfferedGrows(t, s, meanwhile, i + 1, |meanwhile|);
    PrefixOfSum(before, Seen(t, now, meanwhile[i]), n);
  }

  /** So does one after a failure. */
  lemma PollFails(t: Transport, s: Shared, meanwhile: seq<seq<Arrival>>, n: nat, i: nat, now: Shared,
                  before: seq<string>)
    requires i < |meanwhile| && Midway(t, s, meanwhile, n, i, now, before)
    requires |Seen(t, now, meanwhile[i])| < n - |before| && (now.err.Some? || Fails(meanwhile[i]))
    ensures Gathers(t, s, meanwhile, n, before + Seen(t, now, meanwhile[i]), StreamFailed, i + 1)
  {
    BatchOffered(t, s, meanwhile, n, i, now, before);
    NothingOffered(t, s, meanwhile, i + 1, |meanwhile|);
  }

  /** Any other leaves it waiting. */
  lemma PollWaits(t: Transport, s: Shared, meanwhile: seq<seq<Arrival>>, n: nat, i: nat, now: Shared,
                  before: seq<string>, after: Shared)
    requires i < |meanwhile| && Midway(t, s, meanwhile, n, i, now, before)
    requires |Seen(t, now, meanwhile[i])| < n - |before| && !(now.err.Some? || Fails(meanwhile[i]))
    requires after.messages == [] && after.err.None?
    ensures Midway(t, s, meanwhile, n, i + 1, after, before + Seen(t, now, meanwhile[i]))
  {
    BatchOffered(t, s, meanwhile, n, i, now, before);
  }

  lemma PrefixOfSum(a: seq<string>, b: seq<string>, n: nat)
    requires |a| < n
    ensures a + Prefix(b, n - |a|) == Prefix(a + b, n)
  {
  }

  /** The state a collect has reached by its polls so far. */
  ghost predicate Reached(t: Transport, s: Shared, meanwhile: seq<seq<Arrival>>, wants: seq<nat>, now: Shared,
                          collected: seq<string>)
  {
    && |wants| <= |meanwhile|
    && now == RunSchedule(t, s, Polling(meanwhile, wants)) && now.taken == s.taken + collected
  }

  ghost predicate Standing(t: Transport, s: Shared, meanwhile: seq<seq<Arrival>>, n: nat, wants: seq<nat>, now: Shared,
                           collected: seq<string>)
  {
    Reached(t, s, meanwhile, wants, now, collected) && Midway(t, s, meanwhile, n, |wants|, now, collected)
  }

  /** A collect is over: in this state, with these messages, for this reason. */
  ghost predicate Settled(t: Transport, s: Shared, meanwhile: seq<seq<Arrival>>, n: nat, wants: seq<nat>, now: Shared,
                          collected: seq<string>, reason: StopReason)
  {
    && Reached(t, s, meanwhile, wants, now, collected)
    && Gathers(t, s, meanwhile, n, collected, reason, |wants|)
    && (reason != GotEnough ==> now.messages == [] && (now.err.Some? <==> reason == StreamFailed))
  }

  lemma NothingPolled(t: Transport, s: Shared, meanwhile: seq<seq<Arrival>>, n: nat)
    requires n > 0
    ensures Standing(t, s, meanwhile, n, [], s, [])
  {
    assert s.taken + [] == s.taken;
  }

  lemma TimerFires(t: Transport, s: Shared, meanwhile: seq<seq<Arrival>>, n: nat, wants: seq<nat>, now: Shared,
                   collected: seq<string>)
    requires meanwhile != [] && |wants| == |meanwhile| && Standing(t, s, meanwhile, n, wants, now, collected)
    ensures Settled(t, s, meanwhile, n, wants, now, collected, TimedOut)
  {
  }

  lemma ReachedNext(t: Transport, s: Shared, meanwhile: seq<seq<Arrival>>, wants: seq<nat>, now: Shared,
                    before: seq<string>, want: nat, next: Shared, got: seq<string>)
    requires |wants| < |meanwhile| && Reached(t, s, meanwhile, wants, now, before)
    requires next == RunSchedule(t, now, AsActions(meanwhile[|wants|]) + [Poll(want)]) && next.taken == now.taken + got
    ensures Reached(t, s, meanwhile, wants + [want], next, before + got)
  {
    PollingStep(t, s, meanwhile, wants, want);
    Regroup(s.taken, before, got);
  }

  lemma Regroup(a: seq<string>, b: seq<string>, c: seq<string>)
    ensures a + b + c == a + (b + c)
  {
  }

  /** The mutex-protected object both goroutines hold. */
  class StreamBuffer {
    const transport: Transport
    var messages: seq<string>
    var err: Option<string>
    ghost var arrived: seq<string>
    ghost var lost: set<nat>
    ghost var taken: seq<string>

    constructor (transport: Transport)
      ensures this.transport == transport && View() == OPENED
    {
      this.transport := transport;
      messages, err, arrived, lost, taken := [], None, [], {}, [];
    }

    ghost function View(): Shared
      reads this
    {
      Shared(messages, err, arrived, lost, taken)
    }

    /** One locked section of the reader goroutine. */
    method Receive(a: Arrival)
      modifies this
      ensures View() == Read(transport, old(View()), a)
    {
      if err.Some? {
        return;
      }
      match a {
        case ReadError(reason) =>
          err := Some(reason);
        case Message(body) =>
          if transport == GRPC || |messages| < WS_MESSAGE_BUFFER_CAP {
            messages := messages + [body];
          } else {
            lost := lost + {|arrived|};
          }
          arrived := arrived + [body];
      }
    }

    /** Everything the reader does between two polls. */
    method ReceiveAll(arrivals: seq<Arrival>)
      modifies this
      ensures View() == RunSchedule(transport, old(View()), AsActions(arrivals))
    {
      for i := 0 to |arrivals|
        invariant View() == RunSchedule(transport, old(View()), AsActions(arrivals)[..i])
      {
        assert AsActions(arrivals)[..i + 1][..i] == AsActions(arrivals)[..i];
        Receive(arrivals[i]);
      }
      assert AsActions(arrivals)[..|arrivals|] == AsActions(arrivals);
    }

    /** One locked section of the collector. */
    method Take(want: nat) returns (got: seq<string>, bgErr: Option<string>)
      modifies this
      ensures got == Taken(old(View()), want) && bgErr == err
      ensures View() == Polled(old(View()), want)
    {
      got := [];
      var available := |messages|;
      if available > 0 {
        var take := if available < want then available else want;
        got := messages[..take];
        messages := messages[take..];
      }
      taken := taken + got;
      bgErr := err;
    }

    /** The reader's doings up to the next poll, and that poll. */
    method PollAfter(arrivals: seq<Arrival>, want: nat) returns (got: seq<string>, bgErr: Option<string>)
      modifies this
      ensures View() == RunSchedule(transport, old(View()), AsActions(arrivals) + [Poll(want)])
      ensures taken == old(taken) + got && |got| <= want && bgErr == err
      ensures |got| < want ==> messages == []
      ensures got == Prefix(Seen(transport, old(View()), arrivals), want)
      ensures err.Some? <==> old(err).Some? || Fails(arrivals)
    {
      ghost var before := View();
      if err.None? { BatchRead(transport, before, arrivals); } else { NothingAfterError(transport, before, arrivals); }
      ReceiveAll(arrivals);
      ReadersTakeNothing(transport, before, arrivals);
      ghost var actions := AsActions(arrivals) + [Poll(want)];
      assert actions[..|actions| - 1] == AsActions(arrivals);
      got, bgErr := Take(want);
    }

    /** The poll after the next batch, which either settles the collect or leaves it waiting for another. */
    method PollNext(meanwhile: seq<seq<Arrival>>, ghost start: Shared, ghost n: nat, i: nat, want: nat,
                    ghost wants0: seq<nat>, before: seq<string>)
      returns (collected: seq<string>, bgErr: Option<string>, ghost wants: seq<nat>)
      requires i == |wants0| < |meanwhile| && want == n - |before|
      requires Standing(transport, start, meanwhile, n, wants0, View(), before)
      modifies this
      ensures |wants| == i + 1
      ensures |collected| >= n ==>
                Settled(transport, start, meanwhile, n, wants, View(), collected, GotEnough)
      ensures |collected| < n && bgErr.Some? ==>
                Settled(transport, start, meanwhile, n, wants, View(), collected, StreamFailed)
      ensures |collected| < n && bgErr.None? ==>
                Standing(transport, start, meanwhile, n, wants, View(), collected)
    {
      ghost var now := View();
      var got;
      got, bgErr := PollAfter(meanwhile[i], want);
      ReachedNext(transport, start, meanwhile, wants0, now, before, want, View(), got);
      if |got| >= want {
        PollSuffices(transport, start, meanwhile, n, i, now, before);
      } else if err.Some? {
        PollFails(transport, start, meanwhile, n, i, now, before);
      } else {
        PollWaits(transport, start, meanwhile, n, i, now, before, View());
      }
      collected, wants := before + got, wants0 + [want];
    }

    /**
     Collects up to count messages (at least one). meanwhile[i] is what the reader does before poll i; after the last
     of them the timer fires. wants lists what each poll still wanted.
     */
    method Collect(count: int, meanwhile: seq<seq<Arrival>>)
      returns (collected: seq<string>, reason: StopReason, ghost wants: seq<nat>)
      requires meanwhile != []
      modifies this
      ensures Settled(transport, old(View()), meanwhile, if count <= 0 then 1 else count, wants, View(), collected,
                      reason)
    {
      var n := if count <= 0 then 1 else count;
      collected, wants := [], [];
      ghost var start := View();
      NothingPolled(transport, start, meanwhile, n);
      for i := 0 to |meanwhile|
        invariant |wants| == i && Standing(transport, start, meanwhile, n, wants, View(), collected)
      {
        var bgErr;
        collected, bgErr, wants := PollNext(meanwhile, start, n, i, n - |collected|, wants, collected);
        if |collected| >= n {
          return collected, GotEnough, wants;
        }
        if bgErr.Some? {
          return collected, StreamFailed, wants;
        }
      }
      TimerFires(transport, start, meanwhile, n, wants, View(), collected);
      return collected, TimedOut, wants;
    }
  }

  lemma {:induction false} ReadersTakeNothing(t: Transport, s: Shared, arrivals: seq<Arrival>)
    ensures RunSchedule(t, s, AsActions(arrivals)).taken == s.taken
  {
    if arrivals != [] {
      var init := arrivals[..|arrivals| - 1];
      ReadersTakeNothing(t, s, init);
      assert AsActions(arrivals)[..|arrivals| - 1] == AsActions(init);
    }
  }
}
