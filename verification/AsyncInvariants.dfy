/** What every event keeps, in every run of the asynchronous client. */
module AsyncInvariants {
  import opened Resp
  import opened Streams
  import opened Commands
  import opened AsyncModel
  import opened AsyncMessages
  import opened Sockets

  /** The requests among the posted tasks, in order. */
  function Sends(tasks: seq<Task>): (r: seq<Request>)
    ensures |r| <= |tasks|
  {
    if tasks == [] then []
    else (if tasks[0].Send? then [tasks[0].request] else []) + Sends(tasks[1..])
  }

  lemma {:induction false} SendsAppend(a: seq<Task>, b: seq<Task>)
    ensures Sends(a + b) == Sends(a) + Sends(b)
  {
    if a == [] {
      assert a + b == b;
    } else {
      var t := a[1..];
      assert (a + b)[0] == a[0] && (a + b)[1..] == t + b;
      SendsAppend(t, b);
      var head := if a[0].Send? then [a[0].request] else [];
      assert head + (Sends(t) + Sends(b)) == head + Sends(t) + Sends(b);
    }
  }

  lemma {:induction false} NoticesSendNothing(entries: seq<(nat, Callback)>, payload: string)
    ensures Sends(Notices(entries, payload)) == []
  {
    if entries != [] {
      assert Notices(entries, payload)[1..] == Notices(entries[1..], payload);
      NoticesSendNothing(entries[1..], payload);
    }
  }

  /** How many of the issued requests have left the strand. */
  ghost function Executed(c: Client): int {
    |c.log.issued| - |Sends(c.strand)|
  }

  /** The three queues a request passes through hold a consecutive part of the issue order
      each: answered, waiting for a reply, still on the strand. */
  ghost predicate Fifo(c: Client) {
    && Executed(c) == |c.log.called| + |c.handlers|
    && Sends(c.strand) == c.log.issued[Executed(c)..]
    && (forall i :: 0 <= i < |c.handlers| ==> c.handlers[i] == c.log.issued[|c.log.called| + i].handler)
    && (forall i :: 0 <= i < |c.log.called| ==> c.log.called[i].0 == c.log.issued[i].handler)
  }

  function Buffers(rs: seq<Request>): (bs: seq<string>)
    ensures |bs| == |rs| && forall i :: 0 <= i < |rs| ==> bs[i] == rs[i].buff
  {
    seq(|rs|, i requires 0 <= i < |rs| => rs[i].buff)
  }

  /** The double buffer, whatever fails: at most one write is in flight and `dataWrited` holds
      exactly its buffers; what was handed over and what is queued are the executed requests in
      issue order. As long as no write failed, nothing is queued unless a write is in flight, so
      no wake-up is lost. */
  ghost predicate DoubleBuffer(c: Client)
    requires Fifo(c)
  {
    && c.net.inFlight == (if c.dataWrited == [] then 0 else 1)
    && |c.dataWrited| <= |c.net.wire|
    && c.dataWrited == c.net.wire[|c.net.wire| - |c.dataWrited|..]
    && c.net.wire + c.dataQueued == Buffers(c.log.issued[..Executed(c)])
    && (!c.log.writeFailed && c.dataWrited == [] ==> c.dataQueued == [])
  }

  /** A connected client has no subscription request. Since a client is subscribed, only
      acknowledgements have been passed to its reply handlers. */
  ghost predicate Modes(c: Client) {
    && c.Ready() && c.log.answeredBefore <= |c.log.called| <= |c.log.issued|
    && (c.state == Connected ==> forall k :: 0 <= k < |c.log.issued| ==> c.log.issued[k].kind != Subscribing)
    && (c.state == Subscribed ==>
          && (exists k :: 0 <= k < |c.log.issued| && c.log.issued[k].kind == Subscribing)
          && (forall k :: 0 <= k < c.log.answeredBefore ==> c.log.issued[k].kind != Subscribing)
          && (forall k :: c.log.answeredBefore <= k < |c.log.called| ==> IsAck(c.log.called[k].1)))
  }

  /** Handles are given out in increasing order, every stored entry carries one of them, and no
      two stored entries carry the same. */
  ghost predicate Handles(c: Client) {
    && c.log.ids == seq(c.subscribeSeq, i => i)
    && (forall k, i :: k in c.msgHandlers && 0 <= i < |c.msgHandlers[k]| ==> c.msgHandlers[k][i].0 < c.subscribeSeq)
    && (forall k, i, k', i' ::
          && k in c.msgHandlers && 0 <= i < |c.msgHandlers[k]|
          && k' in c.msgHandlers && 0 <= i' < |c.msgHandlers[k']|
          && c.msgHandlers[k][i].0 == c.msgHandlers[k'][i'].0
          ==> k == k' && i == i')
  }

  /** Under every key, the handlers stored are those of the live subscriptions, in order. */
  ghost predicate Subscriptions(c: Client) {
    forall key :: Under(c.msgHandlers, key) == Plain(Live(c.log.history, key))
  }

  /** Under every key, the single-shot handlers ever stored are those that were posted followed
      by those still waiting: none is lost, none is posted twice, and they go in order. */
  ghost predicate SingleShots(c: Client) {
    forall key :: Callbacks(ShotsOf(c.log.history, key))
                  == Fired(c.log.postings, key) + Under(c.singleShotMsgHandlers, key)
  }

  /** Every message was posted to those stored at its moment, and the handlers that have run
      and those on the strand are the posted ones, in order. */
  ghost predicate Deliveries(c: Client) {
    && (forall i :: 0 <= i < |c.log.postings| ==> Faithful(c.log.history, c.log.postings, i))
    && c.log.notified + Notified(c.strand) == Posted(c.log.postings)
  }

  ghost predicate Messages(c: Client) {
    Subscriptions(c) && SingleShots(c) && Deliveries(c)
  }

  /** One read is always waiting until the stream fails, and none after that. */
  ghost predicate ReadLoop(c: Client) {
    c.parser.Valid() && c.net.pendingReads == (if c.log.readStopped then 0 else 1)
  }

  /** Everything but the read loop, which is between two reads while values are processed. */
  ghost predicate Tables(c: Client) {
    Fifo(c) && DoubleBuffer(c) && Modes(c) && Handles(c) && Messages(c)
  }

  // ---- User calls ----

  lemma PostKeeps(c: Client, items: Command, handler: Callback, kind: Kind)
    requires Fifo(c) && DoubleBuffer(c)
    ensures Fifo(Post(c, items, handler, kind)) && DoubleBuffer(Post(c, items, handler, kind))
  {
    hide Wire;
    var r := Post(c, items, handler, kind);
    var t := [Send(Request(Wire(items), handler, kind))];
    SendsAppend(c.strand, t);
    assert t[1..] == [];
    assert r.log.issued[..Executed(r)] == c.log.issued[..Executed(c)];
  }

  /** Changing what Fifo and DoubleBuffer do not look at. */
  lemma QueuesFrame(c: Client, r: Client)
    requires Fifo(c) && DoubleBuffer(c)
    requires Sends(r.strand) == Sends(c.strand) && r.handlers == c.handlers
    requires r.net == c.net.(pendingReads := r.net.pendingReads)
    requires r.dataWrited == c.dataWrited && r.dataQueued == c.dataQueued
    requires r.log.issued == c.log.issued && r.log.called == c.log.called && r.log.writeFailed == c.log.writeFailed
    ensures Fifo(r) && DoubleBuffer(r)
  {
    hide Sends;
    assert Executed(r) == Executed(c);
  }

  lemma PerformKeepsQueues(c: Client, call: Call)
    requires Fifo(c) && DoubleBuffer(c)
    ensures Fifo(Perform(c, call)) && DoubleBuffer(Perform(c, call))
  {
    hide Fifo, DoubleBuffer, Wire;
    QueuesFrame(c, c.Report(InvalidState));
    if call.Execute? {
      PostKeeps(c, [call.cmd] + call.args, call.handler, Ordinary);
    } else if c.Ready() {
      var c0, word, kind := EnterSubscribed(c), SubscribeWord(call.pattern), Subscribing;
      if call.Unsubscribe? {
        c0, word, kind := c, UnsubscribeWord(call.pattern), Unsubscribing;
      }
      QueuesFrame(c, c0);
      PostKeeps(c0, [word, call.channel], call.handler, kind);
      QueuesFrame(Post(c0, [word, call.channel], call.handler, kind), Perform(c, call));
    }
  }

  lemma PerformKeepsModes(c: Client, call: Call)
    requires Modes(c)
    ensures Modes(Perform(c, call))
  {
    hide Wire, Modes;
    var r := Perform(c, call);
    if !c.Ready() || (call.Execute? && c.state != Connected) {
      ModesFrame(c, r);
    } else if call.Execute? {
      ModesSame(c, r, Request(Wire([call.cmd] + call.args), call.handler, Ordinary));
    } else if call.Unsubscribe? {
      ModesSame(c, r, Request(Wire([UnsubscribeWord(call.pattern), call.channel]), call.handler, Unsubscribing));
    } else {
      ModesSubscribed(c, r, Request(Wire([SubscribeWord(call.pattern), call.channel]), call.handler, Subscribing));
    }
  }

  lemma ModesFrame(c: Client, r: Client)
    requires Modes(c) && r.state == c.state && r.log.issued == c.log.issued
    requires r.log.called == c.log.called && r.log.answeredBefore == c.log.answeredBefore
    ensures Modes(r)
  {
    hide IsAck;
  }

  /** A request that fits the mode keeps the mode. */
  lemma ModesSame(c: Client, r: Client, q: Request)
    requires Modes(c) && r.state == c.state && r.log.called == c.log.called
    requires r.log.answeredBefore == c.log.answeredBefore && r.log.issued == c.log.issued + [q]
    requires q.kind != Subscribing
    ensures Modes(r)
  {
    hide IsAck;
    assert forall k :: 0 <= k < |c.log.issued| ==> r.log.issued[k] == c.log.issued[k];
    if c.state == Subscribed {
      assert r.log.issued[SubscribedWitness(c)].kind == Subscribing;
    }
  }

  /** A subscription enters subscribed mode, and remembers what had been answered by then. */
  lemma ModesSubscribed(c: Client, r: Client, q: Request)
    requires Modes(c) && r.state == Subscribed && r.log.called == c.log.called
    requires r.log.issued == c.log.issued + [q] && q.kind == Subscribing
    requires r.log.answeredBefore == (if c.state == Connected then |c.log.called| else c.log.answeredBefore)
    ensures Modes(r)
  {
    hide IsAck;
    assert r.log.issued[|c.log.issued|].kind == Subscribing;
    assert forall k :: 0 <= k < |c.log.issued| ==> r.log.issued[k] == c.log.issued[k];
  }

  ghost function SubscribedWitness(c: Client): (k: nat)
    requires Modes(c) && c.state == Subscribed
    ensures k < |c.log.issued| && c.log.issued[k].kind == Subscribing
  {
    var k :| 0 <= k < |c.log.issued| && c.log.issued[k].kind == Subscribing;
    k
  }

  ghost predicate Distinct(entries: seq<(nat, Callback)>) {
    forall i, j :: 0 <= i < j < |entries| ==> entries[i].0 != entries[j].0
  }

  lemma {:induction false} WithoutKeeps(entries: seq<(nat, Callback)>, id: nat)
    requires Distinct(entries)
    ensures Distinct(Without(entries, id))
  {
    if entries != [] {
      var t := entries[1..];
      var r, whole := Without(t, id), Without(entries, id);
      WithoutKeeps(t, id);
      if entries[0].0 != id {
        forall i, j | 0 <= i < j < |whole|
          ensures whole[i].0 != whole[j].0
        {
          assert whole[j] == r[j - 1] && r[j - 1] in t;
          assert i > 0 ==> whole[i] == r[i - 1];
        }
      }
    }
  }

  /** The handle's entry, and nothing else, disappears: every other entry of the channel is
      still there, and the order is kept. */
  lemma {:induction false} WithoutRemovesOne(entries: seq<(nat, Callback)>, i: nat)
    requires i < |entries|
    requires Distinct(entries)
    ensures Without(entries, entries[i].0) == entries[..i] + entries[i + 1..]
  {
    if i == 0 {
      WithoutNothing(entries[1..], entries[0].0);
      assert entries[..0] + entries[1..] == entries[1..];
    } else {
      var t := entries[1..];
      assert t[i - 1] == entries[i];
      WithoutRemovesOne(t, i - 1);
      assert [entries[0]] + (t[..i - 1] + t[i..]) == entries[..i] + entries[i + 1..];
    }
  }

  lemma {:induction false} WithoutNothing(entries: seq<(nat, Callback)>, id: nat)
    requires forall j :: 0 <= j < |entries| ==> entries[j].0 != id
    ensures Without(entries, id) == entries
  {
    if entries != [] {
      WithoutNothing(entries[1..], id);
    }
  }

  lemma PerformKeepsHandles(c: Client, call: Call)
    requires Handles(c)
    ensures Handles(Perform(c, call))
  {
    hide Wire, Handles;
    var r := Perform(c, call);
    if call.Unsubscribe? && c.Ready() && call.channel in c.msgHandlers {
      var kept := Without(c.msgHandlers[call.channel], call.id);
      UnsubscribeKeepsHandles(c, r, call.channel, call.id);
    } else if call.Subscribe? && c.Ready() {
      SubscribeKeepsHandles(c, r, call.channel, call.msgHandler);
    } else {
      HandlesFrame(c, r);
    }
  }

  lemma HandlesFrame(c: Client, r: Client)
    requires Handles(c)
    requires r.msgHandlers == c.msgHandlers && r.subscribeSeq == c.subscribeSeq && r.log.ids == c.log.ids
    ensures Handles(r)
  {
  }

  lemma SubscribeKeepsHandles(c: Client, r: Client, channel: string, h: Callback)
    requires Handles(c) && r.subscribeSeq == c.subscribeSeq + 1 && r.log.ids == c.log.ids + [c.subscribeSeq]
    requires r.msgHandlers == Insert(c.msgHandlers, channel, (c.subscribeSeq, h))
    ensures Handles(r)
  {
    var n := |Under(c.msgHandlers, channel)|;
    assert r.log.ids == seq(r.subscribeSeq, i => i);
    forall k, i | k in r.msgHandlers && 0 <= i < |r.msgHandlers[k]|
      ensures r.msgHandlers[k][i].0 < r.subscribeSeq
      ensures r.msgHandlers[k][i].0 == c.subscribeSeq <==> k == channel && i == n
      ensures !(k == channel && i == n) ==>
                k in c.msgHandlers && i < |c.msgHandlers[k]| && r.msgHandlers[k][i] == c.msgHandlers[k][i]
    {
    }
  }

  lemma UnsubscribeKeepsHandles(c: Client, r: Client, channel: string, id: nat)
    requires Handles(c) && r.subscribeSeq == c.subscribeSeq && r.log.ids == c.log.ids
    requires channel in c.msgHandlers
    requires r.msgHandlers == c.msgHandlers[channel := Without(c.msgHandlers[channel], id)]
    ensures Handles(r)
  {
    var entries, kept := c.msgHandlers[channel], r.msgHandlers[channel];
    assert Distinct(entries);
    WithoutKeeps(entries, id);
    forall k, i | k in r.msgHandlers && 0 <= i < |r.msgHandlers[k]|
      ensures k in c.msgHandlers
              && exists j :: 0 <= j < |c.msgHandlers[k]| && c.msgHandlers[k][j] == r.msgHandlers[k][i]
    {
      if k == channel {
        assert kept[i] in entries;
      } else {
        assert c.msgHandlers[k][i] == r.msgHandlers[k][i];
      }
    }
  }

  lemma MessagesFrame(c: Client, r: Client)
    requires Messages(c) && r.msgHandlers == c.msgHandlers && r.singleShotMsgHandlers == c.singleShotMsgHandlers
    requires r.log.history == c.log.history && r.log.postings == c.log.postings
    requires r.log.notified + Notified(r.strand) == c.log.notified + Notified(c.strand)
    ensures Messages(r)
  {
    hide Faithful, Notified;
  }

  /** What a call of the interface does to the stored message handlers. */
  ghost predicate Changes(c: Client, r: Client, x: Change) {
    && (x.Added? ==>
          r.msgHandlers == Insert(c.msgHandlers, x.channel, (x.id, x.msgHandler))
          && r.singleShotMsgHandlers == c.singleShotMsgHandlers)
    && (x.Armed? ==>
          r.singleShotMsgHandlers == Insert(c.singleShotMsgHandlers, x.channel, x.msgHandler)
          && r.msgHandlers == c.msgHandlers)
    && (x.Removed? ==>
          Under(r.msgHandlers, x.channel) == Without(Under(c.msgHandlers, x.channel), x.id)
          && (forall k :: k != x.channel ==> Under(r.msgHandlers, k) == Under(c.msgHandlers, k))
          && r.singleShotMsgHandlers == c.singleShotMsgHandlers)
  }

  lemma SubscriptionsChange(c: Client, r: Client, x: Change)
    requires Subscriptions(c) && r.log.history == c.log.history + [x] && Changes(c, r, x)
    ensures Subscriptions(r)
  {
    hide Live;
    forall key
      ensures Under(r.msgHandlers, key) == Plain(Live(r.log.history, key))
    {
      var before := Live(c.log.history, key);
      OneMoreChange(c.log.history, x, key);
      if x.channel == key && x.Added? {
        assert Plain(before + [(x.id, Subscriber(x.pattern, x.msgHandler))]) == Plain(before) + [(x.id, x.msgHandler)];
      } else if x.channel == key && x.Removed? {
        PlainWithout(before, x.id);
      }
    }
  }

  lemma SingleShotsChange(c: Client, r: Client, x: Change)
    requires SingleShots(c) && r.log.history == c.log.history + [x] && Changes(c, r, x)
    requires r.log.postings == c.log.postings
    ensures SingleShots(r)
  {
    hide Fired, ShotsOf;
    forall key
      ensures Callbacks(ShotsOf(r.log.history, key))
              == Fired(r.log.postings, key) + Under(r.singleShotMsgHandlers, key)
    {
      OneMoreChange(c.log.history, x, key);
      if x.channel == key && x.Armed? {
        var before, one := ShotsOf(c.log.history, key), Subscriber(x.pattern, x.msgHandler);
        assert Callbacks(before + [one]) == Callbacks(before) + [x.msgHandler];
      }
    }
  }

  lemma DeliveriesChange(c: Client, r: Client, x: Change)
    requires Deliveries(c) && r.log.history == c.log.history + [x] && r.log.postings == c.log.postings
    requires r.log.notified == c.log.notified && Notified(r.strand) == Notified(c.strand)
    ensures Deliveries(r)
  {
    hide Faithful, Posted, Notified;
    assert c.log.postings + [] == c.log.postings;
    forall i | 0 <= i < |r.log.postings|
      ensures Faithful(r.log.history, r.log.postings, i)
    {
      FaithfulStays(c.log.history, [x], c.log.postings, [], i);
    }
  }

  lemma PerformKeepsMessages(c: Client, call: Call)
    requires Messages(c)
    ensures Messages(Perform(c, call))
  {
    hide Perform, Subscriptions, SingleShots, Deliveries, Changes, Notified;
    var r := Perform(c, call);
    RequestsNotifyNothing(c, call);
    PerformChanges(c, call);
    if r.log.history == c.log.history {
      MessagesFrame(c, r);
    } else {
      var x := r.log.history[|c.log.history|];
      SubscriptionsChange(c, r, x);
      SingleShotsChange(c, r, x);
      DeliveriesChange(c, r, x);
    }
  }

  lemma PerformChanges(c: Client, call: Call)
    ensures var r, n := Perform(c, call), |c.log.history|;
            && r.log.postings == c.log.postings && r.log.notified == c.log.notified
            && (if |r.log.history| == n then
                  r.log.history == c.log.history && r.msgHandlers == c.msgHandlers
                  && r.singleShotMsgHandlers == c.singleShotMsgHandlers
                else
                  && |r.log.history| == n + 1 && r.log.history == c.log.history + [r.log.history[n]]
                  && Changes(c, r, r.log.history[n]))
  {
    hide Wire, Without;
    if call.Unsubscribe? && c.Ready() && call.channel !in c.msgHandlers {
      assert Without<Callback>([], call.id) == [] by { NothingToErase(call.id); }
    }
  }

  lemma NothingToErase(id: nat)
    ensures Without<Callback>([], id) == []
  {
  }

  lemma RequestsNotifyNothing(c: Client, call: Call)
    ensures Notified(Perform(c, call).strand) == Notified(c.strand)
  {
    hide Wire;
    var r := Perform(c, call);
    if r.strand != c.strand {
      var t := [r.strand[|c.strand|]];
      assert r.strand == c.strand + t;
      NotifiedAppend(c.strand, t);
      assert t[1..] == [] && Notified(t) == [];
    }
  }

  lemma PerformKeeps(c: Client, call: Call)
    requires Tables(c)
    ensures Tables(Perform(c, call))
  {
    hide Perform, Fifo, DoubleBuffer, Modes, Handles, Messages;
    PerformKeepsQueues(c, call);
    PerformKeepsModes(c, call);
    PerformKeepsHandles(c, call);
    PerformKeepsMessages(c, call);
  }

  lemma {:induction false} PerformAllKeeps(c: Client, calls: seq<Call>)
    requires Tables(c)
    ensures Tables(PerformAll(c, calls))
    decreases |calls|
  {
    hide Perform, Tables;
    if calls != [] {
      PerformKeeps(c, calls[0]);
      PerformAllKeeps(Perform(c, calls[0]), calls[1..]);
    }
  }

  // ---- Messages ----

  /** Queues, modes and handles only look at the requests on the strand. */
  lemma StrandFrame(c: Client, r: Client)
    requires Tables(c) && Messages(r) && Sends(r.strand) == Sends(c.strand)
    requires r == c.(strand := r.strand, singleShotMsgHandlers := r.singleShotMsgHandlers,
                     log := c.log.(postings := r.log.postings, notified := r.log.notified))
    ensures Tables(r)
  {
    hide Fifo, DoubleBuffer, Modes, Handles, Messages, Sends;
    QueuesFrame(c, r);
    ModesFrame(c, r);
    HandlesFrame(c, r);
  }

  lemma DispatchKeeps(c: Client, pattern: bool, key: string, payload: string)
    requires Tables(c)
    ensures Tables(Dispatch(c, pattern, key, payload))
  {
    hide Fifo, DoubleBuffer, Modes, Handles, Messages;
    var r := Dispatch(c, pattern, key, payload);
    var shots, notices := Under(c.singleShotMsgHandlers, key), Notices(Under(c.msgHandlers, key), payload);
    var first := if shots == [] then [] else [Notify(shots[0], payload)];
    NoticesSendNothing(Under(c.msgHandlers, key), payload);
    SendsAppend(first, notices);
    SendsAppend(c.strand, first + notices);
    assert r.strand == c.strand + (first + notices);
    assert first != [] ==> first[1..] == [];
    assert Sends(first) == [];
    DispatchKeepsMessages(c, pattern, key, payload);
    StrandFrame(c, r);
  }

  lemma DispatchKeepsMessages(c: Client, pattern: bool, key: string, payload: string)
    requires Messages(c)
    ensures Messages(Dispatch(c, pattern, key, payload))
  {
    hide Subscriptions, SingleShots, Deliveries;
    var r := Dispatch(c, pattern, key, payload);
    assert Subscriptions(r) by { DispatchKeepsSubscriptions(c, pattern, key, payload); }
    DispatchKeepsShots(c, pattern, key, payload);
    DispatchKeepsDeliveries(c, pattern, key, payload);
  }

  lemma DispatchKeepsSubscriptions(c: Client, pattern: bool, key: string, payload: string)
    requires Subscriptions(c)
    ensures Subscriptions(Dispatch(c, pattern, key, payload))
  {
    hide Live, Dispatch;
    DispatchPosts(c, pattern, key, payload);
  }

  lemma DispatchKeepsShots(c: Client, pattern: bool, key: string, payload: string)
    requires SingleShots(c)
    ensures SingleShots(Dispatch(c, pattern, key, payload))
  {
    hide ShotsOf;
    var r, shots := Dispatch(c, pattern, key, payload), Under(c.singleShotMsgHandlers, key);
    assert shots == Oldest(shots) + Under(r.singleShotMsgHandlers, key);
    forall k
      ensures Callbacks(ShotsOf(r.log.history, k)) == Fired(r.log.postings, k) + Under(r.singleShotMsgHandlers, k)
    {
      assert r.log.postings[..|c.log.postings|] == c.log.postings;
    }
  }

  /** What the client has stored is what the calls made so far say is waiting. */
  lemma WaitingIsStored(c: Client, key: string)
    requires SingleShots(c)
    ensures Callbacks(Waiting(c.log.history, c.log.postings, key)) == Under(c.singleShotMsgHandlers, key)
  {
    hide ShotsOf, Fired;
    var all, used := ShotsOf(c.log.history, key), |Fired(c.log.postings, key)|;
    assert |Callbacks(all)| >= used && Callbacks(all[used..]) == Callbacks(all)[used..];
  }

  lemma DispatchKeepsDeliveries(c: Client, pattern: bool, key: string, payload: string)
    requires Messages(c)
    ensures Deliveries(Dispatch(c, pattern, key, payload))
  {
    hide Live, Waiting, Notified, SingleShots, Faithful;
    var r, n := Dispatch(c, pattern, key, payload), |c.log.postings|;
    WaitingIsStored(c, key);
    DispatchNotifies(c, pattern, key, payload);
    var m := r.log.postings[n];
    assert r.log.postings == c.log.postings + [m] && r.log.postings[..n] == c.log.postings;
    assert c.log.history + [] == c.log.history;
    NextPosting(c.log.history, c.log.postings, m);
    forall i | 0 <= i < |r.log.postings|
      ensures Faithful(r.log.history, r.log.postings, i)
    {
      if i < n {
        FaithfulStays(c.log.history, [], c.log.postings, [m], i);
      }
    }
    assert c.log.notified + (Notified(c.strand) + CallsOf(m)) == c.log.notified + Notified(c.strand) + CallsOf(m);
  }

  lemma NextPosting(history: seq<Change>, postings: seq<Posting>, m: Posting)
    requires m.at == |history| && m.entries == Plain(Live(history, m.key))
    requires m.shots == Oldest(Callbacks(Waiting(history, postings, m.key)))
    ensures Faithful(history, postings + [m], |postings|)
  {
    assert history[..|history|] == history && (postings + [m])[..|postings|] == postings;
  }

  lemma ReportKeeps(c: Client, e: Diagnostic)
    requires Tables(c)
    ensures Tables(c.Report(e))
  {
    hide Fifo, DoubleBuffer, Modes, Handles, Messages, Sends;
    QueuesFrame(c, c.Report(e));
    ModesFrame(c, c.Report(e));
    HandlesFrame(c, c.Report(e));
    MessagesFrame(c, c.Report(e));
  }

  /** The client with its oldest handler taken off and logged as called. */
  ghost function Taking(c: Client, v: RedisValue): Client
    requires c.handlers != []
  {
    c.(handlers := c.handlers[1..], log := c.log.(called := c.log.called + [(c.handlers[0], v)]))
  }

  lemma TakingKeeps(c: Client, v: RedisValue)
    requires Tables(c) && c.handlers != [] && (c.state == Subscribed ==> IsAck(v))
    ensures Tables(Taking(c, v))
  {
    hide Fifo, DoubleBuffer, Messages, Modes, Handles;
    var r := Taking(c, v);
    TakingKeepsQueues(c, v);
    WaitingWasIssued(c);
    MessagesFrame(c, r);
    HandlesFrame(c, r);
    TakingKeepsModes(c, r, v);
  }

  lemma WaitingWasIssued(c: Client)
    requires Fifo(c)
    ensures |c.log.called| + |c.handlers| <= |c.log.issued|
  {
  }

  lemma TakingKeepsQueues(c: Client, v: RedisValue)
    requires Fifo(c) && DoubleBuffer(c) && c.handlers != []
    ensures Fifo(Taking(c, v)) && DoubleBuffer(Taking(c, v))
  {
    hide Sends;
    var r := Taking(c, v);
    assert Executed(r) == Executed(c) && Fifo(r);
  }

  lemma TakingKeepsModes(c: Client, r: Client, v: RedisValue)
    requires Modes(c) && r.state == c.state && (c.state == Subscribed ==> IsAck(v))
    requires r.log.issued == c.log.issued && r.log.answeredBefore == c.log.answeredBefore
    requires |r.log.called| == |c.log.called| + 1 <= |c.log.issued| && c.log.called <= r.log.called
    requires r.log.called[|c.log.called|].1 == v
    ensures Modes(r)
  {
    hide IsAck;
  }

  /** What a handler calls does not depend on when the handler is removed. */
  lemma {:induction false} PerformAllFrame(c: Client, hs: seq<Callback>, calls: seq<Call>)
    ensures PerformAll(c.(handlers := hs), calls) == PerformAll(c, calls).(handlers := hs)
    decreases |calls|
  {
    hide Wire;
    if calls != [] {
      PerformFrame(c, hs, calls[0]);
      PerformAllFrame(Perform(c, calls[0]), hs, calls[1..]);
    }
  }

  lemma PerformFrame(c: Client, hs: seq<Callback>, call: Call)
    ensures Perform(c.(handlers := hs), call) == Perform(c, call).(handlers := hs)
  {
    hide Wire;
  }

  lemma AnswerIsTaking(react: React, c: Client, v: RedisValue)
    requires c.handlers != []
    ensures Answer(react, c, v) == PerformAll(Taking(c, v), react(c.handlers[0], v))
  {
    hide PerformAll;
    var h := c.handlers[0];
    PerformAllFrame(c.(log := c.log.(called := c.log.called + [(h, v)])), c.handlers[1..], react(h, v));
  }

  lemma ProcessKeeps(react: React, c: Client, v: RedisValue)
    requires Tables(c)
    ensures Tables(Process(react, c, v))
  {
    hide Tables, Answer, Dispatch, PerformAll;
    var result := v.ToArray();
    if c.handlers != [] && (c.state == Subscribed ==> IsAck(v)) {
      AnswerIsTaking(react, c, v);
      TakingKeeps(c, v);
      PerformAllKeeps(Taking(c, v), react(c.handlers[0], v));
    }
    ReportKeeps(c, UnexpectedMessage(v));
    ReportKeeps(c, ProtocolError);
    if |result| >= 3 {
      var cmd := result[0].ToByteArray();
      DispatchKeeps(c, cmd == PMESSAGE, PushKey(result), PushPayload(result));
      ReportKeeps(c, InvalidCommand(cmd));
    }
  }

  lemma {:induction false} ProcessAllKeeps(react: React, c: Client, vs: seq<RedisValue>)
    requires Tables(c)
    ensures Tables(ProcessAll(react, c, vs))
    decreases |vs|
  {
    hide Tables, Process;
    if vs != [] {
      ProcessKeeps(react, c, vs[0]);
      ProcessAllKeeps(react, Process(react, c, vs[0]), vs[1..]);
    }
  }

  // ---- Writing and reading ----

  /** Modes, handles and messages do not look at the queues. */
  lemma QueuesOnly(c: Client, r: Client)
    requires Tables(c) && Fifo(r) && DoubleBuffer(r)
    requires r.state == c.state && r.msgHandlers == c.msgHandlers && r.subscribeSeq == c.subscribeSeq
    requires r.singleShotMsgHandlers == c.singleShotMsgHandlers && Notified(r.strand) == Notified(c.strand)
    requires r.log == c.log.(writeFailed := r.log.writeFailed, errors := r.log.errors)
    ensures Tables(r)
  {
    hide Fifo, DoubleBuffer, Modes, Handles, Messages;
    ModesFrame(c, r);
    HandlesFrame(c, r);
    MessagesFrame(c, r);
  }

  /** A completed write: everything queued meanwhile becomes the next write. */
  lemma WriteDoneKeeps(c: Client, ec: ErrorCode)
    requires Tables(c) && c.net.inFlight > 0
    ensures Tables(AsyncWrite(c.(net := c.net.(inFlight := c.net.inFlight - 1)), ec))
  {
    hide Fifo, DoubleBuffer, Modes, Handles, Messages;
    WriteDoneKeepsQueues(c, ec);
    QueuesOnly(c, AsyncWrite(c.(net := c.net.(inFlight := c.net.inFlight - 1)), ec));
  }

  lemma WriteDoneKeepsQueues(c: Client, ec: ErrorCode)
    requires Fifo(c) && DoubleBuffer(c) && c.net.inFlight > 0
    ensures var r := AsyncWrite(c.(net := c.net.(inFlight := c.net.inFlight - 1)), ec);
            Fifo(r) && DoubleBuffer(r)
  {
    hide Sends;
    var r := AsyncWrite(c.(net := c.net.(inFlight := c.net.inFlight - 1)), ec);
    assert Fifo(r) && Executed(r) == Executed(c);
    hide Fifo, Executed;
    assert r.net.wire + r.dataQueued == c.net.wire + c.dataQueued;
  }

  /** A failed write breaks the no-lost-wake-up rule exactly when something was queued behind
      it: that stays queued with no write in flight, until the next request takes it along. */
  lemma FailedWriteStrandsTheQueue(c: Client, ec: ErrorCode, request: Request)
    requires Tables(c) && !c.log.writeFailed && c.net.inFlight > 0 && ec != NoError
    ensures var r := AsyncWrite(c.(net := c.net.(inFlight := c.net.inFlight - 1)), ec);
            && r.net.inFlight == 0 && r.dataWrited == []
            && (r.dataQueued != [] <==> c.dataQueued != [])
            && DoAsyncCommand(r, request).net.wire == c.net.wire + c.dataQueued + [request.buff]
  {
    hide Modes, Handles, Messages;
  }

  /** A request that leaves the strand joins the waiting handlers. */
  lemma StartKeepsFifo(c: Client, r: Client, request: Request, rest: seq<Task>)
    requires Fifo(c) && c.strand == [Send(request)] + rest
    requires r.strand == rest && r.log == c.log && r.handlers == c.handlers + [request.handler]
    ensures Fifo(r) && Executed(r) == Executed(c) + 1
    ensures 0 <= Executed(c) < |c.log.issued| && c.log.issued[Executed(c)] == request
  {
    assert c.strand[1..] == rest;
    assert Sends(c.strand) == [request] + Sends(rest);
    assert c.log.issued[Executed(c)] == request && Sends(rest) == c.log.issued[Executed(c) + 1..];
  }

  lemma DoAsyncCommandKeeps(c: Client, request: Request, rest: seq<Task>)
    requires Fifo(c) && DoubleBuffer(c) && c.strand == [Send(request)] + rest
    ensures Fifo(DoAsyncCommand(c.(strand := rest), request))
    ensures DoubleBuffer(DoAsyncCommand(c.(strand := rest), request))
  {
    hide Fifo, Executed;
    var r, e := DoAsyncCommand(c.(strand := rest), request), Executed(c);
    StartKeepsFifo(c, r, request, rest);
    assert Buffers(c.log.issued[..e + 1]) == Buffers(c.log.issued[..e]) + [request.buff] by {
      assert c.log.issued[..e + 1] == c.log.issued[..e] + [request];
    }
    assert r.net.wire + r.dataQueued == c.net.wire + c.dataQueued + [request.buff];
  }

  lemma RunFrontKeeps(c: Client)
    requires Tables(c) && c.strand != []
    ensures Tables(RunFront(c))
  {
    hide Fifo, DoubleBuffer, Modes, Handles, Messages;
    var r, rest := RunFront(c), c.strand[1..];
    assert c.strand == [c.strand[0]] + rest;
    if c.strand[0].Send? {
      DoAsyncCommandKeeps(c, c.strand[0].request, rest);
      assert Notified(c.strand) == Notified(rest);
      QueuesOnly(c, r);
    } else {
      assert Sends(c.strand) == Sends(rest);
      NotifyRuns(c, r);
      MessagesFrame(c, r);
      StrandFrame(c, r);
    }
  }

  /** The handler at the front of the strand runs next. */
  lemma NotifyRuns(c: Client, r: Client)
    requires c.strand != [] && c.strand[0].Notify? && r == RunFront(c)
    ensures r.log.notified + Notified(r.strand) == c.log.notified + Notified(c.strand)
  {
    var one := [(c.strand[0].msgHandler, c.strand[0].payload)];
    assert c.log.notified + (one + Notified(r.strand)) == c.log.notified + one + Notified(r.strand);
  }

  ghost predicate Inv(c: Client) {
    Tables(c) && ReadLoop(c)
  }

  lemma PerformKeepsReads(c: Client, call: Call)
    ensures Perform(c, call).log.readStopped == c.log.readStopped
  {
    hide Wire, Without;
    match call
    case Execute(_, _, _) =>
    case Subscribe(_, _, _, _) =>
    case SingleShot(_, _, _, _) =>
    case Unsubscribe(_, _, _, _) =>
  }

  lemma {:induction false} PerformAllKeepsReads(c: Client, calls: seq<Call>)
    ensures PerformAll(c, calls).log.readStopped == c.log.readStopped
    decreases |calls|
  {
    hide Perform;
    if calls != [] {
      PerformKeepsReads(c, calls[0]);
      PerformAllKeepsReads(Perform(c, calls[0]), calls[1..]);
    }
  }

  lemma {:induction false} ProcessAllKeepsReads(react: React, c: Client, vs: seq<RedisValue>)
    ensures ProcessAll(react, c, vs).log.readStopped == c.log.readStopped
    decreases |vs|
  {
    hide Process;
    if vs != [] {
      ProcessKeepsReads(react, c, vs[0]);
      ProcessAllKeepsReads(react, Process(react, c, vs[0]), vs[1..]);
    }
  }

  lemma ProcessKeepsReads(react: React, c: Client, v: RedisValue)
    ensures Process(react, c, v).log.readStopped == c.log.readStopped
  {
    hide Answer, PerformAll;
    if c.handlers != [] {
      AnswerIsTaking(react, c, v);
      PerformAllKeepsReads(Taking(c, v), react(c.handlers[0], v));
    }
  }

  lemma WriteKeepsReads(c: Client, ec: ErrorCode)
    ensures AsyncWrite(c, ec).net.pendingReads == c.net.pendingReads
    ensures AsyncWrite(c, ec).log.readStopped == c.log.readStopped && AsyncWrite(c, ec).parser == c.parser
  {
  }

  lemma RunFrontKeepsReads(c: Client)
    requires c.strand != []
    ensures RunFront(c).net.pendingReads == c.net.pendingReads
    ensures RunFront(c).log.readStopped == c.log.readStopped && RunFront(c).parser == c.parser
  {
  }

  /** The queues and tables do not look at the parser, the reads or the read flag. */
  lemma ReadFrame(c: Client, r: Client)
    requires Tables(c)
    requires r == c.(parser := r.parser, net := c.net.(pendingReads := r.net.pendingReads),
                     log := c.log.(readStopped := r.log.readStopped))
    ensures Tables(r)
  {
    hide Fifo, DoubleBuffer, Modes, Handles, Messages, Sends;
    QueuesFrame(c, r);
    ModesFrame(c, r);
    HandlesFrame(c, r);
    MessagesFrame(c, r);
  }

  lemma ReadableKeeps(react: React, c: Client, chunk: string)
    requires Inv(c) && c.net.pendingReads > 0
    ensures Inv(AsyncRead(react, c.(net := c.net.(pendingReads := c.net.pendingReads - 1)), chunk))
  {
    hide Tables, ProcessAll, Drain;
    var c0 := c.(net := c.net.(pendingReads := c.net.pendingReads - 1));
    var r := Drain(c.parser, chunk);
    var c1 := c0.(parser := r.p);
    ReadFrame(c, c1);
    ProcessAllKeeps(react, c1, r.values);
    ProcessAllKeepsReads(react, c1, r.values);
    var c2 := ProcessAll(react, c1, r.values);
    var stopped := c2.(log := c2.log.(readStopped := true));
    ReadFrame(c2, stopped);
    ReportKeeps(stopped, ParserError);
    ReadFrame(c2, c2.(net := c2.net.(pendingReads := c2.net.pendingReads + 1)));
  }

  lemma ReadErrorKeeps(c: Client, ec: ErrorCode)
    requires Inv(c) && c.net.pendingReads > 0
    ensures Inv(ReadFailed(c.(net := c.net.(pendingReads := c.net.pendingReads - 1)), ec))
  {
    hide Tables;
    var c1 := c.(net := c.net.(pendingReads := c.net.pendingReads - 1), log := c.log.(readStopped := true));
    ReadFrame(c, c1);
    ReportKeeps(c1, IoError(ec));
  }

  lemma OccurKeeps(react: React, c: Client, e: Event)
    requires Inv(c)
    ensures Inv(Occur(react, c, e))
  {
    hide Tables, Perform, ProcessAll, Drain, AsyncWrite, RunFront;
    match e
    case User(call) =>
      PerformKeeps(c, call);
      PerformKeepsReads(c, call);
    case RunTask =>
      if c.strand != [] {
        RunFrontKeeps(c);
        RunFrontKeepsReads(c);
      }
    case WriteDone(ec) =>
      if c.net.inFlight > 0 {
        WriteDoneKeeps(c, ec);
        WriteKeepsReads(c.(net := c.net.(inFlight := c.net.inFlight - 1)), ec);
      }
    case Readable(chunk) =>
      if c.net.pendingReads > 0 && chunk != "" {
        ReadableKeeps(react, c, chunk);
      }
    case ReadError(ec) =>
      if c.net.pendingReads > 0 {
        ReadErrorKeeps(c, ec);
      }
  }

  /** Every run of a client that satisfies the invariants satisfies them in every state, with
      failing writes and reads, malformed input and handlers that call back at any time. */
  lemma {:induction false} ExecKeeps(react: React, c: Client, es: seq<Event>)
    requires Inv(c)
    ensures Inv(Exec(react, c, es))
    decreases |es|
  {
    hide Tables, Occur;
    if es != [] {
      var last := |es| - 1;
      ExecKeeps(react, c, es[..last]);
      OccurKeeps(react, Exec(react, c, es[..last]), es[last]);
    }
  }
}
