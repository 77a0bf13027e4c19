/** The WebSocket fan-out hub: registered clients with bounded channels, broadcasts under the read lock,
    removals scheduled from the read loops and from overflowing broadcasts. */
module FanOutHub {
  import opened Wrappers
  import opened Sequences

  type Conn = nat

  const CAPACITY := 256

  /** What a client subscribed to: one pair (kline hub), or a chain and categories (token hub). */
  datatype Topic = Pair(pairAddress: string) | Tokens(chainId: int, categories: seq<string>)

  datatype Message =
    | KlineUpdate(pairAddress: string, data: string)
    | NewToken(chainId: int, pumpStatus: int, data: string)
    | StatusUpdate(chainId: int, data: string)

  /** pumpStatusToCategory. */
  function Category(pumpStatus: int): string {
    if pumpStatus == 2 then "completing" else if pumpStatus == 4 then "completed" else "new_creation"
  }

  predicate Wants(topic: Topic, m: Message) {
    match (topic, m)
    case (Pair(p), KlineUpdate(q, _)) => p == q
    case (Tokens(chain, categories), NewToken(c, status, _)) => chain == c && Category(status) in categories
    case (Tokens(chain, _), StatusUpdate(c, _)) => chain == c
    case _ => false
  }

  /** A client's send channel. since, upTo, accepted, delivered and overflowed record its history: the part of
      the broadcast log it was visited for, the messages it took, those its writer took, whether it was ever
      full, and whether it changed its topic. */
  datatype Channel = Channel(
    topic: Topic, buffer: seq<Message>, closed: bool, closes: nat,
    since: nat, upTo: nat, accepted: seq<Message>, delivered: seq<Message>, overflowed: bool, resubscribed: bool)

  datatype Round = Round(message: Message, remaining: set<Conn>)

  datatype Hub = Hub(
    clients: set<Conn>,              // the keys of the client map
    channels: map<Conn, Channel>,    // every channel ever made, by its connection
    readers: set<Conn>,              // connections whose read loop is running
    removals: multiset<Conn>,        // removals that are due but have not got the write lock yet
    round: Option<Round>,            // the broadcast that holds the read lock
    log: seq<Message>,               // history: every broadcast so far
    panicked: bool)                  // a closed channel was closed or sent on

  const EMPTY_HUB := Hub({}, map[], {}, multiset{}, None, [], false)

  datatype Action =
    | Register(c: Conn, topic: Topic)
    | Resubscribe(c: Conn, categories: seq<string>)
    | StartBroadcast(m: Message)
    | SendTo(c: Conn)
    | EndBroadcast
    | ReaderStops(c: Conn)
    | Remove(c: Conn)
    | WriterTakes(c: Conn)

  predicate Enabled(h: Hub, a: Action) {
    match a
    case Register(c, _) => h.round == None && c !in h.channels
    case Resubscribe(c, _) => c in h.readers && c in h.channels && h.channels[c].topic.Tokens?
    case StartBroadcast(_) => h.round == None
    case SendTo(c) => h.round.Some? && c in h.round.value.remaining && c in h.channels
    case EndBroadcast => h.round.Some? && h.round.value.remaining == {}
    case ReaderStops(c) => c in h.readers
    case Remove(c) => h.round == None && c in h.removals
    case WriterTakes(c) => c in h.channels && h.channels[c].buffer != []
  }

  function NewChannel(topic: Topic, now: nat): Channel { Channel(topic, [], false, 0, now, now, [], [], false, false) }

  /** The client of the loop: a non-blocking send if it wants the message, a scheduled removal when full. */
  function Visit(h: Hub, c: Conn, m: Message): (r: Hub)
    requires c in h.channels
    ensures r.channels.Keys == h.channels.Keys && r.log == h.log
  {
    var ch := h.channels[c];
    if !Wants(ch.topic, m) then h.(channels := h.channels[c := ch.(upTo := |h.log|)])
    else if ch.closed then h.(panicked := true)
    else if |ch.buffer| < CAPACITY then
      h.(channels := h.channels[c := ch.(buffer := ch.buffer + [m], accepted := ch.accepted + [m], upTo := |h.log|)])
    else
      h.(channels := h.channels[c := ch.(overflowed := true, upTo := |h.log|)], removals := h.removals + multiset{c})
  }

  /** removeKlineClient and removeClient, under the write lock. */
  function RemoveClient(h: Hub, c: Conn): Hub {
    if c in h.clients && c in h.channels then
      var ch := h.channels[c];
      h.(channels := h.channels[c := ch.(closed := true, closes := ch.closes + 1)],
         clients := h.clients - {c}, panicked := h.panicked || ch.closed)
    else h
  }

  function Apply(h: Hub, a: Action): Hub
    requires Enabled(h, a)
  {
    match a
    case Register(c, topic) =>
      h.(clients := h.clients + {c}, channels := h.channels[c := NewChannel(topic, |h.log|)], readers := h.readers + {c})
    case Resubscribe(c, categories) =>
      var ch := h.channels[c];
      h.(channels := h.channels[c := ch.(topic := ch.topic.(categories := categories), resubscribed := true)])
    case StartBroadcast(m) => h.(round := Some(Round(m, h.clients)), log := h.log + [m])
    case SendTo(c) =>
      var r := h.round.value;
      Visit(h, c, r.message).(round := Some(r.(remaining := r.remaining - {c})))
    case EndBroadcast => h.(round := None)
    case ReaderStops(c) => h.(readers := h.readers - {c}, removals := h.removals + multiset{c})
    case Remove(c) => RemoveClient(h.(removals := h.removals - multiset{c}), c)
    case WriterTakes(c) =>
      var ch := h.channels[c];
      h.(channels := h.channels[c := ch.(buffer := ch.buffer[1..], delivered := ch.delivered + [ch.buffer[0]])])
  }

  /** The state a run leads to from h, or None when some action of it was not possible. */
  function From(h: Hub, run: seq<Action>): Option<Hub> {
    if run == [] then Some(h)
    else
      match From(h, run[..|run| - 1])
      case None => None
      case Some(g) => if Enabled(g, run[|run| - 1]) then Some(Apply(g, run[|run| - 1])) else None
  }

  function Execute(run: seq<Action>): Option<Hub> { From(EMPTY_HUB, run) }

  // ---------------------------------------------------------------- channel safety

  predicate Pending(h: Hub, c: Conn) { h.round.Some? && c in h.round.value.remaining }

  ghost predicate ChannelOk(h: Hub, c: Conn)
    requires c in h.channels
  {
    var ch := h.channels[c];
    && (c in h.clients <==> !ch.closed)
    && ch.closes == (if ch.closed then 1 else 0)
    && |ch.buffer| <= CAPACITY
    && ch.accepted == ch.delivered + ch.buffer
    && ch.since <= ch.upTo <= |h.log|
    && (c in h.clients ==> ch.upTo == if Pending(h, c) then |h.log| - 1 else |h.log|)
  }

  ghost predicate RoundOk(h: Hub) {
    h.round.Some? ==>
      h.round.value.remaining <= h.clients && h.log != [] && h.log[|h.log| - 1] == h.round.value.message
  }

  ghost predicate Safe(h: Hub) {
    && !h.panicked
    && h.clients <= h.channels.Keys
    && (forall c :: c in h.channels ==> ChannelOk(h, c))
    && RoundOk(h)
  }

  lemma VisitOther(h: Hub, d: Conn, m: Message, c: Conn)
    requires c in h.channels && d in h.channels && c != d
    ensures Visit(h, d, m).channels[c] == h.channels[c] && Visit(h, d, m).removals[c] == h.removals[c]
  {
    hide Wants;
  }

  /** Visiting an open channel keeps it open, bounded and first in, first out, and leaves the others alone. */
  lemma VisitChannel(h: Hub, c: Conn, m: Message)
    requires c in h.channels && !h.channels[c].closed && |h.channels[c].buffer| <= CAPACITY
    requires h.channels[c].accepted == h.channels[c].delivered + h.channels[c].buffer
    ensures var g := Visit(h, c, m);
            var ch := g.channels[c];
            && (g.panicked, g.clients, g.log, g.round) == (h.panicked, h.clients, h.log, h.round)
            && !ch.closed && ch.closes == h.channels[c].closes && |ch.buffer| <= CAPACITY
            && ch.accepted == ch.delivered + ch.buffer
            && ch.since == h.channels[c].since && ch.upTo == |h.log|
            && forall d :: d in h.channels && d != c ==> g.channels[d] == h.channels[d]
  {
    hide Wants;
  }

  lemma VisitSafe(h: Hub, c: Conn)
    requires Safe(h) && Enabled(h, SendTo(c))
    ensures Safe(Apply(h, SendTo(c)))
  {
    hide Visit;
    var y := Apply(h, SendTo(c));
    assert ChannelOk(h, c);
    VisitChannel(h, c, h.round.value.message);
    forall d | d in y.channels ensures ChannelOk(y, d) {
      assert ChannelOk(h, d);
    }
  }

  lemma StepChannelSafe(h: Hub, a: Action, d: Conn)
    requires Safe(h) && Enabled(h, a) && !a.SendTo? && d in Apply(h, a).channels
    ensures ChannelOk(Apply(h, a), d)
  {
    hide Wants, Visit;
    assert d in h.channels ==> ChannelOk(h, d);
  }

  lemma StepSafe(h: Hub, a: Action)
    requires Safe(h) && Enabled(h, a)
    ensures Safe(Apply(h, a))
  {
    hide Visit, ChannelOk;
    if a.SendTo? {
      VisitSafe(h, a.c);
    } else {
      forall d | d in Apply(h, a).channels ensures ChannelOk(Apply(h, a), d) {
        StepChannelSafe(h, a, d);
      }
      if a.Remove? && a.c in h.clients {
        OpenClient(h, a.c);
      }
    }
  }

  lemma OpenClient(h: Hub, c: Conn)
    requires Safe(h) && c in h.clients
    ensures c in h.channels && !h.channels[c].closed
  {
    assert ChannelOk(h, c);
  }

  /** Over all runs: a client is in the map exactly when its channel is open, no channel is closed twice, no
      broadcast sends on a closed channel, and no backlog exceeds 256. */
  lemma {:induction false} RunSafe(run: seq<Action>)
    requires Execute(run).Some?
    ensures Safe(Execute(run).value)
  {
    hide Safe, Enabled, Apply;
    if run == [] {
      EmptySafe();
    } else {
      RunSafe(run[..|run| - 1]);
      StepSafe(Execute(run[..|run| - 1]).value, run[|run| - 1]);
    }
  }

  /** The same in full: open channels are those of registered clients, each is closed at most once, none holds more
      than 256 messages, and neither a broadcast nor a removal that is about to touch a channel finds it closed. */
  lemma ChannelsSafe(run: seq<Action>, c: Conn)
    requires Execute(run).Some? && c in Execute(run).value.channels
    ensures var h := Execute(run).value;
            var ch := h.channels[c];
            && (c in h.clients <==> !ch.closed)
            && ch.closes == (if ch.closed then 1 else 0)
            && |ch.buffer| <= 256
            && (h.round.Some? && c in h.round.value.remaining ==> !ch.closed)
            && !h.panicked
  {
    hide Execute;
    RunSafe(run);
    assert ChannelOk(Execute(run).value, c);
  }

  lemma EmptySafe()
    ensures Safe(EMPTY_HUB)
  {
  }

  // ---------------------------------------------------------------- delivery

  /** The messages of a stretch of the log that a topic wants. */
  function Wanted(log: seq<Message>, topic: Topic): seq<Message> {
    if log == [] then []
    else Wanted(log[..|log| - 1], topic) + if Wants(topic, log[|log| - 1]) then [log[|log| - 1]] else []
  }

  /** a can be obtained from b by leaving messages out. */
  predicate Subsequence(a: seq<Message>, b: seq<Message>) {
    if a == [] then true
    else if b == [] then false
    else
      || (a[|a| - 1] == b[|b| - 1] && Subsequence(a[..|a| - 1], b[..|b| - 1]))
      || Subsequence(a, b[..|b| - 1])
  }

  lemma {:induction false} SubsequenceRefl(a: seq<Message>)
    ensures Subsequence(a, a)
  {
    if a == [] {
    } else {
      SubsequenceRefl(a[..|a| - 1]);
    }
  }

  lemma SubsequenceSkip(a: seq<Message>, b: seq<Message>, m: Message)
    requires Subsequence(a, b)
    ensures Subsequence(a, b + [m])
  {
    assert (b + [m])[..|b|] == b;
  }

  lemma SubsequenceBoth(a: seq<Message>, b: seq<Message>, m: Message)
    requires Subsequence(a, b)
    ensures Subsequence(a + [m], b + [m])
  {
    assert (b + [m])[..|b|] == b && (a + [m])[..|a|] == a;
  }

  /** What the broadcasts that visited this channel had for it. */
  function Due(h: Hub, c: Conn): seq<Message>
    requires c in h.channels
  {
    var ch := h.channels[c];
    if ch.since <= ch.upTo <= |h.log| then Wanted(h.log[ch.since..ch.upTo], ch.topic) else []
  }

  ghost predicate DeliversInOrder(h: Hub, c: Conn)
    requires c in h.channels
  {
    && (h.channels[c].topic.Pair? ==> !h.channels[c].resubscribed)
    && (!h.channels[c].resubscribed ==>
      && Subsequence(h.channels[c].accepted, Due(h, c))
      && (!h.channels[c].overflowed ==> h.channels[c].accepted == Due(h, c)))
  }

  ghost predicate Delivering(h: Hub) { forall c :: c in h.channels ==> DeliversInOrder(h, c) }

  lemma DueGrows(h: Hub, c: Conn)
    requires Safe(h) && Pending(h, c) && c in h.channels
    ensures var m, ch := h.round.value.message, h.channels[c];
            && ch.since <= ch.upTo < |h.log|
            && Wanted(h.log[ch.since..|h.log|], ch.topic) == Due(h, c) + if Wants(ch.topic, m) then [m] else []
  {
    hide Wants;
    assert ChannelOk(h, c);
    var ch := h.channels[c];
    var longer := h.log[ch.since..|h.log|];
    assert longer[..|longer| - 1] == h.log[ch.since..ch.upTo];
  }

  lemma VisitDelivers(h: Hub, c: Conn)
    requires Safe(h) && Delivering(h) && Enabled(h, SendTo(c))
    ensures DeliversInOrder(Apply(h, SendTo(c)), c)
  {
    hide Wants, Wanted, Subsequence;
    assert ChannelOk(h, c) && DeliversInOrder(h, c);
    var m, ch := h.round.value.message, h.channels[c];
    DueGrows(h, c);
    var due := Due(h, c);
    if !ch.resubscribed {
      SubsequenceSkip(ch.accepted, due, m);
      SubsequenceBoth(ch.accepted, due, m);
      if !Wants(ch.topic, m) {
        assert due + [] == due;
      }
    }
  }

  /** A step that does not visit a channel leaves its delivery history alone, and the log only grows. */
  lemma StepKeepsHistory(h: Hub, a: Action, c: Conn)
    requires Enabled(h, a) && c in h.channels && a != SendTo(c)
    ensures c in Apply(h, a).channels && h.log <= Apply(h, a).log
    ensures var ch, ch' := h.channels[c], Apply(h, a).channels[c];
            && (ch'.since, ch'.upTo, ch'.accepted, ch'.overflowed) == (ch.since, ch.upTo, ch.accepted, ch.overflowed)
            && ((ch'.topic == ch.topic && ch'.resubscribed == ch.resubscribed) || (ch'.topic.Tokens? && ch'.resubscribed))
  {
    hide Wants, Visit;
    if a.SendTo? {
      VisitOther(h, a.c, h.round.value.message, c);
    }
  }

  lemma StepDeliversAt(h: Hub, a: Action, c: Conn)
    requires Safe(h) && Enabled(h, a) && c in h.channels && DeliversInOrder(h, c) && a != SendTo(c)
    ensures c in Apply(h, a).channels && DeliversInOrder(Apply(h, a), c)
  {
    hide Apply, Enabled, Wants, Wanted, Subsequence;
    assert ChannelOk(h, c);
    StepKeepsHistory(h, a, c);
    var y, ch := Apply(h, a), h.channels[c];
    assert y.log[ch.since..ch.upTo] == h.log[ch.since..ch.upTo];
  }

  lemma NewChannelDelivers(h: Hub, a: Action, c: Conn)
    requires Enabled(h, a) && c !in h.channels && c in Apply(h, a).channels
    ensures DeliversInOrder(Apply(h, a), c)
  {
    hide Wants, Wanted, Subsequence, Visit;
    var y := Apply(h, a);
    SubsequenceRefl([]);
    NothingWanted(y.channels[c].topic);
    assert y.log[|y.log|..|y.log|] == [];
  }

  lemma StepDelivers(h: Hub, a: Action)
    requires Safe(h) && Delivering(h) && Enabled(h, a)
    ensures Delivering(Apply(h, a))
  {
    hide Apply, Safe, Enabled, DeliversInOrder;
    forall c | c in Apply(h, a).channels ensures DeliversInOrder(Apply(h, a), c) {
      if c !in h.channels {
        NewChannelDelivers(h, a, c);
      } else if a == SendTo(c) {
        VisitDelivers(h, c);
      } else {
        StepDeliversAt(h, a, c);
      }
    }
  }

  lemma NothingWanted(topic: Topic)
    ensures Wanted([], topic) == []
  {
  }

  /** Over all runs: what the channel of a client accepts that never changed its subscription, as no kline
      client can, is a subsequence, in publication order, of the broadcasts for it that were made while it was
      registered, all of them unless it was ever full; the writer takes them first in, first out. */
  lemma {:induction false} RunDelivers(run: seq<Action>)
    requires Execute(run).Some?
    ensures Delivering(Execute(run).value)
  {
    hide Safe, Enabled, Apply, Delivering;
    if run == [] {
      EmptyDelivers();
    } else {
      var front := run[..|run| - 1];
      RunDelivers(front);
      RunSafe(front);
      StepDelivers(Execute(front).value, run[|run| - 1]);
    }
  }

  lemma EmptyDelivers()
    ensures Delivering(EMPTY_HUB)
  {
  }

  /** Between broadcasts, a registered client that never changed its subscription and never overflowed has been
      handed every broadcast for it since it registered: delivered already, or waiting in its channel. */
  lemma NothingMissed(run: seq<Action>, c: Conn)
    requires Execute(run).Some?
    requires var h := Execute(run).value;
             && h.round == None && c in h.clients && c in h.channels
             && (h.channels[c].topic.Pair? || !h.channels[c].resubscribed) && !h.channels[c].overflowed
    ensures var h := Execute(run).value;
            var ch := h.channels[c];
            && ch.since <= |h.log|
            && ch.delivered + ch.buffer == Wanted(h.log[ch.since..], ch.topic)
  {
    hide Execute, Wanted, Subsequence;
    RunSafe(run);
    RunDelivers(run);
    var h := Execute(run).value;
    assert ChannelOk(h, c) && DeliversInOrder(h, c);
    assert h.log[h.channels[c].since..|h.log|] == h.log[h.channels[c].since..];
  }

  // ---------------------------------------------------------------- who gets what

  lemma {:induction false} WantedIsFilter(log: seq<Message>, topic: Topic, keep: Message -> bool)
    requires forall m :: keep(m) <==> Wants(topic, m)
    ensures Wanted(log, topic) == Filter(log, keep)
  {
    hide Wants;
    if log == [] {
    } else {
      var front, last := log[..|log| - 1], log[|log| - 1];
      WantedIsFilter(front, topic, keep);
      FilterSnoc(front, last, keep);
      assert log == front + [last];
    }
  }

  lemma {:induction false} SubsequenceMember(a: seq<Message>, b: seq<Message>, m: Message)
    requires Subsequence(a, b) && m in a
    ensures m in b
  {
    if b == [] {
    } else {
      assert b == b[..|b| - 1] + [b[|b| - 1]];
      assert a == a[..|a| - 1] + [a[|a| - 1]];
      if Subsequence(a, b[..|b| - 1]) {
        SubsequenceMember(a, b[..|b| - 1], m);
      } else if m != a[|a| - 1] {
        SubsequenceMember(a[..|a| - 1], b[..|b| - 1], m);
      }
    }
  }

  /** What a client whose topic asks for the messages that satisfy keep has been given in a run. */
  lemma ClientGets(run: seq<Action>, c: Conn, keep: Message -> bool)
    requires Execute(run).Some? && c in Execute(run).value.channels
    requires forall m :: keep(m) <==> Wants(Execute(run).value.channels[c].topic, m)
    ensures var h := Execute(run).value;
            var ch := h.channels[c];
            !ch.resubscribed ==>
              && (forall m :: m in ch.accepted ==> keep(m))
              && ch.since <= ch.upTo <= |h.log|
              && Subsequence(ch.accepted, Filter(h.log[ch.since..ch.upTo], keep))
              && (!ch.overflowed ==> ch.accepted == Filter(h.log[ch.since..ch.upTo], keep))
              && (h.round == None && c in h.clients ==> ch.upTo == |h.log|)
  {
    hide Execute, Subsequence, Wants, Wanted;
    RunSafe(run);
    RunDelivers(run);
    var h := Execute(run).value;
    var ch := h.channels[c];
    assert ChannelOk(h, c) && DeliversInOrder(h, c);
    if !ch.resubscribed {
      var part := h.log[ch.since..ch.upTo];
      WantedIsFilter(part, ch.topic, keep);
      forall m | m in ch.accepted ensures keep(m) {
        SubsequenceMember(ch.accepted, Filter(part, keep), m);
        FilterMember(part, keep, m);
      }
    }
  }

  /** A kline client gets kline updates of its own pair and nothing else, in the order of publication, and, while it
      never overflows, all of those published since it registered. */
  lemma PairClientGets(run: seq<Action>, c: Conn, pair: string)
    requires Execute(run).Some? && c in Execute(run).value.channels
    requires Execute(run).value.channels[c].topic == Pair(pair)
    ensures var h := Execute(run).value;
            var ch := h.channels[c];
            && (forall m :: m in ch.accepted ==> m.KlineUpdate? && m.pairAddress == pair)
            && ch.since <= ch.upTo <= |h.log| && ch.accepted == ch.delivered + ch.buffer && |ch.buffer| <= 256
            && (!ch.overflowed ==>
                  ch.accepted == Filter(h.log[ch.since..ch.upTo], (m: Message) => m.KlineUpdate? && m.pairAddress == pair))
            && (h.round == None && c in h.clients ==> ch.upTo == |h.log|)
  {
    hide Execute, Subsequence;
    RunSafe(run);
    RunDelivers(run);
    var h := Execute(run).value;
    assert ChannelOk(h, c) && DeliversInOrder(h, c);
    ClientGets(run, c, (m: Message) => m.KlineUpdate? && m.pairAddress == pair);
  }

  /** A token client gets the status updates of its chain, and the new tokens of its chain whose pump status belongs
      to one of its categories: 2 is completing, 4 completed, anything else new. */
  lemma TokenClientGets(run: seq<Action>, c: Conn, chain: int, categories: seq<string>)
    requires Execute(run).Some? && c in Execute(run).value.channels
    requires Execute(run).value.channels[c].topic == Tokens(chain, categories)
    requires !Execute(run).value.channels[c].resubscribed
    ensures var h := Execute(run).value;
            var ch := h.channels[c];
            var keep := (m: Message) =>
              || (m.StatusUpdate? && m.chainId == chain)
              || (m.NewToken? && m.chainId == chain
                  && ((m.pumpStatus == 2 && "completing" in categories)
                      || (m.pumpStatus == 4 && "completed" in categories)
                      || (m.pumpStatus != 2 && m.pumpStatus != 4 && "new_creation" in categories)));
            && (forall m :: m in ch.accepted ==> keep(m))
            && ch.since <= ch.upTo <= |h.log|
            && (!ch.overflowed ==> ch.accepted == Filter(h.log[ch.since..ch.upTo], keep))
            && (h.round == None && c in h.clients ==> ch.upTo == |h.log|)
  {
    hide Execute, Subsequence;
    var keep := (m: Message) =>
      || (m.StatusUpdate? && m.chainId == chain)
      || (m.NewToken? && m.chainId == chain
          && ((m.pumpStatus == 2 && "completing" in categories)
              || (m.pumpStatus == 4 && "completed" in categories)
              || (m.pumpStatus != 2 && m.pumpStatus != 4 && "new_creation" in categories)));
    ClientGets(run, c, keep);
  }

  /** A message for an open channel is taken while fewer than 256 wait; otherwise it is dropped and a removal falls
      due. */
  lemma FullMeans256(h: Hub, c: Conn, m: Message)
    requires c in h.channels && Wants(h.channels[c].topic, m) && !h.channels[c].closed
    ensures var ch, g := h.channels[c], Visit(h, c, m);
            if |ch.buffer| < 256
            then g.channels[c].accepted == ch.accepted + [m] && g.channels[c].overflowed == ch.overflowed && g.removals == h.removals
            else g.channels[c].accepted == ch.accepted && g.channels[c].overflowed && g.removals == h.removals + multiset{c}
  {
    hide Wants;
  }

  // ---------------------------------------------------------------- removals

  /** A client whose read loop has ended, or that has overflowed, is gone or due for removal. */
  ghost predicate RemovalDue(h: Hub) {
    forall c :: c in h.clients && c in h.channels && (c !in h.readers || h.channels[c].overflowed) ==> c in h.removals
  }

  lemma VisitKeepsDue(h: Hub, c: Conn, m: Message)
    requires c in h.channels
    ensures Visit(h, c, m).clients == h.clients && Visit(h, c, m).readers == h.readers
    ensures h.removals <= Visit(h, c, m).removals
    ensures Visit(h, c, m).channels[c].overflowed ==> h.channels[c].overflowed || c in Visit(h, c, m).removals
  {
    hide Wants;
  }

  lemma SendKeepsDue(h: Hub, c: Conn)
    requires Enabled(h, SendTo(c)) && RemovalDue(h)
    ensures RemovalDue(Apply(h, SendTo(c)))
  {
    hide Visit;
    var m := h.round.value.message;
    VisitKeepsDue(h, c, m);
    var y := Apply(h, SendTo(c));
    forall d | d in y.clients && d in y.channels && (d !in y.readers || y.channels[d].overflowed) ensures d in y.removals {
      if d != c {
        VisitOther(h, c, m, d);
      }
    }
  }

  lemma StepKeepsDue(h: Hub, a: Action)
    requires Enabled(h, a) && RemovalDue(h)
    ensures RemovalDue(Apply(h, a))
  {
    hide Wants, Visit;
    if a.SendTo? {
      SendKeepsDue(h, a.c);
    }
  }

  /** Over all runs nobody stays registered unnoticed: once its read loop has ended or its channel was full, a client
      is removed or a removal is on its way. */
  lemma {:induction false} RunRemovalDue(run: seq<Action>)
    requires Execute(run).Some?
    ensures RemovalDue(Execute(run).value)
    ensures var h := Execute(run).value;
            forall c :: c in h.clients && c in h.channels && (c !in h.readers || h.channels[c].overflowed) ==> c in h.removals
  {
    hide Apply, Enabled;
    if run == [] {
      assert RemovalDue(EMPTY_HUB) by { NothingDue(); }
    } else {
      RunRemovalDue(run[..|run| - 1]);
      StepKeepsDue(Execute(run[..|run| - 1]).value, run[|run| - 1]);
    }
  }

  lemma NothingDue()
    ensures RemovalDue(EMPTY_HUB)
  {
  }

  // ---------------------------------------------------------------- the server's methods

  /** The broadcast loop over the clients, in the order the map iteration happened to take. */
  function VisitAll(h: Hub, order: seq<Conn>, m: Message): (r: Hub)
    requires forall c :: c in order ==> c in h.channels
    ensures r.channels.Keys == h.channels.Keys && r.clients == h.clients && r.log == h.log && r.round == h.round
    ensures r.readers == h.readers
  {
    if order == [] then h else Visit(VisitAll(h, order[..|order| - 1], m), order[|order| - 1], m)
  }

  function Elements(order: seq<Conn>): set<Conn> { set c | c in order }

  function Sends(order: seq<Conn>): (run: seq<Action>)
    ensures |run| == |order|
  {
    seq(|order|, i requires 0 <= i < |order| => SendTo(order[i]))
  }

  lemma ElementsSnoc(front: seq<Conn>, last: Conn, later: set<Conn>)
    ensures Elements(front + [last]) + later == Elements(front) + (later + {last})
    ensures Elements([]) + later == later
  {
  }

  lemma SendsSnoc(front: seq<Conn>, last: Conn)
    ensures Sends(front + [last]) == Sends(front) + [SendTo(last)] && Sends([]) == []
  {
  }

  /** Visiting clients inside the loop is a run of sends of the transition system. */
  lemma {:induction false} VisitsAreSends(h: Hub, order: seq<Conn>, m: Message, later: set<Conn>)
    requires forall c :: c in order ==> c in h.channels && c !in later
    requires forall i, j :: 0 <= i < j < |order| ==> order[i] != order[j]
    requires h.round == Some(Round(m, Elements(order) + later))
    ensures From(h, Sends(order)) == Some(VisitAll(h, order, m).(round := Some(Round(m, later))))
  {
    hide Wants, Visit, Apply, Enabled, Elements, Sends;
    if order == [] {
      ElementsSnoc([], 0, later);
      SendsSnoc([], 0);
    } else {
      hide From, VisitAll;
      var n := |order| - 1;
      var front, last := order[..n], order[n];
      assert order == front + [last];
      ElementsSnoc(front, last, later);
      SendsSnoc(front, last);
      VisitsAreSends(h, front, m, later + {last});
      var before := VisitAll(h, front, m);
      SendIsVisit(before, last, m, later);
      FromSnoc(h, Sends(front), SendTo(last), before.(round := Some(Round(m, later + {last}))));
      VisitSnoc(h, front, last, m);
    }
  }

  lemma SendIsVisit(h: Hub, c: Conn, m: Message, later: set<Conn>)
    requires c in h.channels && c !in later
    ensures var g := h.(round := Some(Round(m, later + {c})));
            Enabled(g, SendTo(c)) && Apply(g, SendTo(c)) == Visit(h, c, m).(round := Some(Round(m, later)))
  {
    hide Visit;
    VisitIgnoresRound(h, c, m, Some(Round(m, later + {c})));
    assert later + {c} - {c} == later;
  }

  lemma VisitIgnoresRound(h: Hub, c: Conn, m: Message, round: Option<Round>)
    requires c in h.channels
    ensures Visit(h.(round := round), c, m) == Visit(h, c, m).(round := round)
  {
  }

  lemma {:induction false} FromConcat(h: Hub, a: seq<Action>, b: seq<Action>)
    ensures From(h, a + b) == match From(h, a) { case None => None case Some(g) => From(g, b) }
  {
    hide Enabled, Apply;
    if b == [] {
      assert a + b == a;
    } else {
      var n := |b| - 1;
      FromConcat(h, a, b[..n]);
      assert (a + b)[..|a + b| - 1] == a + b[..n];
    }
  }

  function BroadcastRun(m: Message, order: seq<Conn>): seq<Action> {
    [StartBroadcast(m)] + Sends(order) + [EndBroadcast]
  }

  lemma FromSnoc(h: Hub, run: seq<Action>, a: Action, g: Hub)
    requires From(h, run) == Some(g) && Enabled(g, a)
    ensures From(h, run + [a]) == Some(Apply(g, a))
  {
    assert (run + [a])[..|run|] == run;
  }

  lemma Starts(h: Hub, m: Message)
    requires h.round == None
    ensures From(h, [StartBroadcast(m)]) == Some(h.(log := h.log + [m], round := Some(Round(m, h.clients))))
  {
    var one: seq<Action> := [StartBroadcast(m)];
    assert one[..0] == [];
  }

  /** A whole broadcast, in any iteration order of the client map, is a run of the transition system. */
  lemma BroadcastIsRun(h: Hub, m: Message, order: seq<Conn>)
    requires h.round == None && h.clients <= h.channels.Keys
    requires (forall c :: c in order <==> c in h.clients) && forall i, j :: 0 <= i < j < |order| ==> order[i] != order[j]
    ensures From(h, BroadcastRun(m, order)) == Some(VisitAll(h.(log := h.log + [m]), order, m))
  {
    hide Wants, VisitAll, Sends, Visit, From, Apply, Enabled;
    var logged := h.(log := h.log + [m]);
    var started := logged.(round := Some(Round(m, h.clients)));
    Starts(h, m);
    assert Elements(order) + {} == h.clients;
    VisitsAreSends(started, order, m, {});
    FromConcat(h, [StartBroadcast(m)], Sends(order));
    VisitAllIgnoresRound(logged, order, m, started.round);
    var sent := VisitAll(started, order, m).(round := Some(Round(m, {})));
    Ends(sent, m);
    FromSnoc(h, [StartBroadcast(m)] + Sends(order), EndBroadcast, sent);
  }

  lemma Ends(h: Hub, m: Message)
    requires h.round == Some(Round(m, {}))
    ensures Enabled(h, EndBroadcast) && Apply(h, EndBroadcast) == h.(round := None)
  {
  }

  lemma {:induction false} VisitAllIgnoresRound(h: Hub, order: seq<Conn>, m: Message, round: Option<Round>)
    requires forall c :: c in order ==> c in h.channels
    ensures VisitAll(h.(round := round), order, m) == VisitAll(h, order, m).(round := round)
  {
    if order == [] {
    } else {
      var n := |order| - 1;
      VisitAllIgnoresRound(h, order[..n], m, round);
      VisitIgnoresRound(VisitAll(h, order[..n], m), order[n], m, round);
    }
  }

  lemma VisitLocal(h: Hub, g: Hub, c: Conn, m: Message)
    requires c in h.channels && c in g.channels
    requires h.channels[c] == g.channels[c] && h.removals[c] == g.removals[c] && h.log == g.log
    ensures Visit(h, c, m).channels[c] == Visit(g, c, m).channels[c]
    ensures Visit(h, c, m).removals[c] == Visit(g, c, m).removals[c]
  {
    hide Wants;
  }

  /** What a broadcast does to one channel does not depend on the other clients or on the iteration order. */
  lemma {:induction false} VisitAllOne(h: Hub, order: seq<Conn>, m: Message, c: Conn)
    requires forall d :: d in order ==> d in h.channels
    requires forall i, j :: 0 <= i < j < |order| ==> order[i] != order[j]
    requires c in h.channels
    ensures VisitAll(h, order, m).channels[c] == (if c in order then Visit(h, c, m) else h).channels[c]
    ensures VisitAll(h, order, m).removals[c] == (if c in order then Visit(h, c, m) else h).removals[c]
  {
    hide Wants, Visit;
    if order == [] {
    } else {
      var n := |order| - 1;
      var last := order[n];
      assert order == order[..n] + [last];
      VisitAllOne(h, order[..n], m, c);
      var before := VisitAll(h, order[..n], m);
      if c == last {
        VisitLocal(before, h, c, m);
      } else {
        VisitOther(before, last, m, c);
      }
    }
  }

  lemma {:induction false} SafeRun(h: Hub, run: seq<Action>)
    requires Safe(h) && From(h, run).Some?
    ensures Safe(From(h, run).value)
  {
    hide Safe, Enabled, Apply;
    if run == [] {
    } else {
      SafeRun(h, run[..|run| - 1]);
      StepSafe(From(h, run[..|run| - 1]).value, run[|run| - 1]);
    }
  }

  class Server {
    var clients: set<Conn>
    var channels: map<Conn, Channel>
    var readers: set<Conn>
    var removals: multiset<Conn>
    var log: seq<Message>
    var panicked: bool

    ghost function State(): Hub
      reads this
    {
      Hub(clients, channels, readers, removals, None, log, panicked)
    }

    ghost predicate Valid()
      reads this
    {
      Safe(State())
    }

    constructor ()
      ensures Valid() && State() == EMPTY_HUB
    {
      clients, channels, readers, removals, log, panicked := {}, map[], {}, multiset{}, [], false;
      new;
      EmptySafe();
    }

    /** The registration part of HandleKlineWebSocket and HandleTokenWebSocket; a connection registers once. */
    method Register(c: Conn, topic: Topic)
      requires Valid() && c !in channels
      modifies this
      ensures Valid() && State() == Apply(old(State()), Action.Register(c, topic))
    {
      ghost var before := State();
      channels, clients := channels[c := NewChannel(topic, |log|)], clients + {c};
      readers := readers + {c};
      StepSafe(before, Action.Register(c, topic));
    }

    /** The deferred part of a read loop. */
    method ReaderStops(c: Conn)
      requires Valid() && c in readers
      modifies this
      ensures Valid() && State() == Apply(old(State()), Action.ReaderStops(c))
    {
      ghost var before := State();
      readers, removals := readers - {c}, removals + multiset{c};
      StepSafe(before, Action.ReaderStops(c));
    }

    /** A scheduled removal gets the write lock; only the first one for a client closes its channel. */
    method Remove(c: Conn) returns (closed: bool)
      requires Valid() && c in removals
      modifies this
      ensures Valid() && State() == Apply(old(State()), Action.Remove(c))
      ensures closed == (c in old(clients)) && c !in clients && !panicked
      ensures removals == old(removals) - multiset{c}
    {
      hide Safe, ChannelOk, Wants, Visit;
      ghost var before := State();
      assert before.clients <= before.channels.Keys by { SafeClients(before); }
      removals := removals - multiset{c};
      closed := c in clients;
      if closed {
        var ch := channels[c];
        panicked := panicked || ch.closed;
        channels := channels[c := ch.(closed := true, closes := ch.closes + 1)];
        clients := clients - {c};
      }
      StepSafe(before, Action.Remove(c));
      SafeNotPanicked(State());
    }

    /** The read loop of the token hub takes a subscribe message: the categories change, the chain does not. */
    method Resubscribe(c: Conn, categories: seq<string>)
      requires Valid() && c in readers && c in channels && channels[c].topic.Tokens?
      modifies this
      ensures Valid() && State() == Apply(old(State()), Action.Resubscribe(c, categories))
      ensures c in channels && channels[c].topic == Tokens(old(channels[c].topic.chainId), categories)
      ensures c in channels && channels[c].buffer == old(channels[c].buffer)
    {
      ghost var before := State();
      var ch := channels[c];
      channels := channels[c := ch.(topic := ch.topic.(categories := categories), resubscribed := true)];
      StepSafe(before, Action.Resubscribe(c, categories));
    }

    /** The write loop receives from its channel. */
    method WriterTakes(c: Conn) returns (m: Message)
      requires Valid() && c in channels && channels[c].buffer != []
      modifies this
      ensures Valid() && State() == Apply(old(State()), Action.WriterTakes(c))
      ensures m == old(channels[c].buffer[0])
    {
      ghost var before := State();
      var ch := channels[c];
      m := ch.buffer[0];
      channels := channels[c := ch.(buffer := ch.buffer[1..], delivered := ch.delivered + [m])];
      StepSafe(before, Action.WriterTakes(c));
    }

    /** BroadcastKlineUpdate, BroadcastNewToken and BroadcastTokenStatusUpdate: the loop under the read lock. */
    method Broadcast(m: Message) returns (order: seq<Conn>)
      requires Valid()
      modifies this
      ensures Valid()
      ensures (forall c :: c in order <==> c in clients) && clients == old(clients)
      ensures From(old(State()), BroadcastRun(m, order)) == Some(State())
      ensures log == old(log) + [m] && readers == old(readers) && channels.Keys == old(channels.Keys)
      ensures forall c :: c in channels ==>
        channels[c] == if c in clients then Visit(old(State()).(log := log), c, m).channels[c] else old(channels)[c]
      ensures forall c :: c in channels ==>
        removals[c] == if c in clients then Visit(old(State()).(log := log), c, m).removals[c] else old(removals)[c]
    {
      hide Safe, ChannelOk, Wants, Visit, VisitAll, From, BroadcastRun;
      ghost var before := State();
      assert before.clients <= before.channels.Keys by { SafeClients(before); }
      log := log + [m];
      ghost var logged := State();
      order := [];
      var left := clients;
      assert VisitAll(logged, [], m) == logged by { VisitNone(logged, m); }
      while left != {}
        invariant log == logged.log && clients == before.clients && left <= clients
        invariant forall c :: c in order <==> c in clients - left
        invariant forall i, j :: 0 <= i < j < |order| ==> order[i] != order[j]
        invariant State() == VisitAll(logged, order, m)
        decreases left
      {
        var c :| c in left;
        VisitSnoc(logged, order, c, m);
        Send(c, m);
        assert c !in order;
        order, left := order + [c], left - {c};
      }
      BroadcastIsRun(before, m, order);
      SafeRun(before, BroadcastRun(m, order));
      assert channels.Keys == before.channels.Keys == logged.channels.Keys;
      forall c | c in channels
        ensures channels[c] == if c in clients then Visit(logged, c, m).channels[c] else before.channels[c]
        ensures removals[c] == if c in clients then Visit(logged, c, m).removals[c] else before.removals[c]
      {
        VisitAllOne(logged, order, m, c);
      }
    }

    /** The select of the loop: skip, send when there is room, or schedule the removal. */
    method Send(c: Conn, m: Message)
      requires c in channels
      modifies this
      ensures State() == Visit(old(State()), c, m)
    {
      hide Wants;
      var ch := channels[c];
      if !Wants(ch.topic, m) {
        channels := channels[c := ch.(upTo := |log|)];
      } else if ch.closed {
        panicked := true;
      } else if |ch.buffer| < CAPACITY {
        channels := channels[c := ch.(buffer := ch.buffer + [m], accepted := ch.accepted + [m], upTo := |log|)];
      } else {
        channels := channels[c := ch.(overflowed := true, upTo := |log|)];
        removals := removals + multiset{c};
      }
    }
  }

  lemma SafeClients(h: Hub)
    requires Safe(h)
    ensures h.clients <= h.channels.Keys
  {
  }

  lemma SafeNotPanicked(h: Hub)
    requires Safe(h)
    ensures !h.panicked
  {
  }

  lemma VisitNone(h: Hub, m: Message)
    ensures VisitAll(h, [], m) == h
  {
  }

  lemma VisitSnoc(h: Hub, order: seq<Conn>, c: Conn, m: Message)
    requires forall d :: d in order + [c] ==> d in h.channels
    ensures VisitAll(h, order + [c], m) == Visit(VisitAll(h, order, m), c, m)
  {
    assert (order + [c])[..|order|] == order;
  }
}
