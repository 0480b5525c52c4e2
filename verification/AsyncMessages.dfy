/** Which message handlers are stored at any moment, told from the calls made so far, and what
    a pushed message does with them. */
module AsyncMessages {
  import opened Resp
  import opened AsyncModel

  /** The owner of a stored message handler: a pattern or a channel subscription. */
  datatype Subscriber = Subscriber(pattern: bool, msgHandler: Callback)

  // ---- The stored handlers, from the calls made so far ----

  /** The subscriptions under a key that were made and not taken back, oldest first. */
  function Live(history: seq<Change>, key: string): seq<(nat, Subscriber)> {
    if history == [] then [] else
    var before, last := Live(history[..|history| - 1], key), history[|history| - 1];
    if last.channel != key || last.Armed? then before
    else if last.Added? then before + [(last.id, Subscriber(last.pattern, last.msgHandler))]
    else Without(before, last.id)
  }

  /** Every single-shot subscription ever made under a key, oldest first. */
  function ShotsOf(history: seq<Change>, key: string): seq<Subscriber> {
    if history == [] then [] else
    var before, last := ShotsOf(history[..|history| - 1], key), history[|history| - 1];
    if last.channel == key && last.Armed? then before + [Subscriber(last.pattern, last.msgHandler)] else before
  }

  /** The single-shot handlers posted so far under a key. */
  function Fired(postings: seq<Posting>, key: string): seq<Callback> {
    if postings == [] then [] else
    var before, last := Fired(postings[..|postings| - 1], key), postings[|postings| - 1];
    if last.key == key then before + last.shots else before
  }

  /** The single-shot subscriptions under a key that have not been used up. */
  function Waiting(history: seq<Change>, postings: seq<Posting>, key: string): seq<Subscriber> {
    var all, used := ShotsOf(history, key), |Fired(postings, key)|;
    if used <= |all| then all[used..] else []
  }

  function Callbacks(owners: seq<Subscriber>): (r: seq<Callback>)
    ensures |r| == |owners| && forall i :: 0 <= i < |r| ==> r[i] == owners[i].msgHandler
  {
    seq(|owners|, i requires 0 <= i < |owners| => owners[i].msgHandler)
  }

  /** The entries as the client stores them. */
  function Plain(entries: seq<(nat, Subscriber)>): (r: seq<(nat, Callback)>)
    ensures |r| == |entries| && forall i :: 0 <= i < |r| ==> r[i] == (entries[i].0, entries[i].1.msgHandler)
  {
    seq(|entries|, i requires 0 <= i < |entries| => (entries[i].0, entries[i].1.msgHandler))
  }

  function Owners(entries: seq<(nat, Subscriber)>): (r: seq<Subscriber>)
    ensures |r| == |entries| && forall i :: 0 <= i < |r| ==> r[i] == entries[i].1
  {
    seq(|entries|, i requires 0 <= i < |entries| => entries[i].1)
  }

  /** One more change. */
  lemma OneMoreChange(history: seq<Change>, x: Change, key: string)
    ensures Live(history + [x], key) ==
            if x.channel != key || x.Armed? then Live(history, key)
            else if x.Added? then Live(history, key) + [(x.id, Subscriber(x.pattern, x.msgHandler))]
            else Without(Live(history, key), x.id)
    ensures ShotsOf(history + [x], key) ==
            if x.channel == key && x.Armed? then ShotsOf(history, key) + [Subscriber(x.pattern, x.msgHandler)]
            else ShotsOf(history, key)
  {
    assert (history + [x])[..|history|] == history;
  }

  /** The i-th change made this subscription, and no later one took it back. */
  ghost predicate Standing(history: seq<Change>, i: nat, key: string, id: nat, owner: Subscriber) {
    && i < |history| && history[i] == Added(owner.pattern, key, id, owner.msgHandler)
    && forall j :: i < j < |history| ==> history[j] != Removed(key, id)
  }

  lemma StandingStep(history: seq<Change>, i: nat, key: string, id: nat, owner: Subscriber)
    requires i < |history|
    ensures var n := |history| - 1;
            Standing(history, i, key, id, owner) <==>
            if i == n then history[n] == Added(owner.pattern, key, id, owner.msgHandler)
            else Standing(history[..n], i, key, id, owner) && history[n] != Removed(key, id)
  {
    var n := |history| - 1;
    assert forall j :: 0 <= j < n ==> history[..n][j] == history[j];
  }

  /** A subscription is live exactly when it was made and its handle was not unsubscribed from
      its key since. */
  lemma {:induction false} LiveMeans(history: seq<Change>, key: string, id: nat, owner: Subscriber)
    ensures (id, owner) in Live(history, key) <==> exists i :: Standing(history, i, key, id, owner)
    decreases |history|
  {
    if history != [] {
      hide Standing;
      var n := |history| - 1;
      var before, x, added := history[..n], history[n], Added(owner.pattern, key, id, owner.msgHandler);
      assert history == before + [x];
      LiveMeans(before, key, id, owner);
      OneMoreChange(before, x, key);
      hide Live;
      forall i: nat | i < |history|
        ensures Standing(history, i, key, id, owner) <==>
                if i == n then x == added else Standing(before, i, key, id, owner) && x != Removed(key, id)
      {
        StandingStep(history, i, key, id, owner);
      }
      StandingBounds(key, id, owner);
      if x == added {
        assert Standing(history, n, key, id, owner);
      }
    }
  }

  lemma StandingBounds(key: string, id: nat, owner: Subscriber)
    ensures forall history, i: nat {:trigger Standing(history, i, key, id, owner)} ::
              Standing(history, i, key, id, owner) ==> i < |history|
  {
  }

  lemma {:induction false} PlainWithout(entries: seq<(nat, Subscriber)>, id: nat)
    ensures Plain(Without(entries, id)) == Without(Plain(entries), id)
  {
    if entries != [] {
      PlainWithout(entries[1..], id);
      assert Plain(entries)[1..] == Plain(entries[1..]);
    }
  }

  // ---- Postings ----

  /** The calls a posting puts on the strand: its single shot first. */
  function CallsOf(m: Posting): seq<(Callback, string)> {
    seq(|m.shots|, i requires 0 <= i < |m.shots| => (m.shots[i], m.payload))
    + seq(|m.entries|, i requires 0 <= i < |m.entries| => (m.entries[i].1, m.payload))
  }

  function Posted(postings: seq<Posting>): seq<(Callback, string)> {
    if postings == [] then []
    else Posted(postings[..|postings| - 1]) + CallsOf(postings[|postings| - 1])
  }

  /** The calls waiting on the strand. */
  function Notified(tasks: seq<Task>): seq<(Callback, string)> {
    if tasks == [] then []
    else (if tasks[0].Notify? then [(tasks[0].msgHandler, tasks[0].payload)] else []) + Notified(tasks[1..])
  }

  lemma {:induction false} NotifiedAppend(a: seq<Task>, b: seq<Task>)
    ensures Notified(a + b) == Notified(a) + Notified(b)
  {
    if a == [] {
      assert a + b == b;
    } else {
      var t := a[1..];
      assert (a + b)[0] == a[0] && (a + b)[1..] == t + b;
      NotifiedAppend(t, b);
      var head := if a[0].Notify? then [(a[0].msgHandler, a[0].payload)] else [];
      assert head + (Notified(t) + Notified(b)) == head + Notified(t) + Notified(b);
    }
  }

  lemma {:induction false} NoticesNotify(entries: seq<(nat, Callback)>, payload: string)
    ensures Notified(Notices(entries, payload)) ==
            seq(|entries|, i requires 0 <= i < |entries| => (entries[i].1, payload))
  {
    if entries != [] {
      var t := entries[1..];
      assert Notices(entries, payload)[1..] == Notices(t, payload);
      NoticesNotify(t, payload);
    }
  }

  /** The i-th posting took the oldest single shot waiting under its key, if any, and all the
      subscriptions live under its key, as both stood at that moment. */
  ghost predicate Faithful(history: seq<Change>, postings: seq<Posting>, i: nat)
    requires i < |postings|
  {
    var m := postings[i];
    && m.at <= |history|
    && m.shots == Oldest(Callbacks(Waiting(history[..m.at], postings[..i], m.key)))
    && m.entries == Plain(Live(history[..m.at], m.key))
  }

  /** What happens later does not change what a posting did. */
  lemma FaithfulStays(history: seq<Change>, later: seq<Change>, postings: seq<Posting>, more: seq<Posting>, i: nat)
    requires i < |postings| && Faithful(history, postings, i)
    ensures Faithful(history + later, postings + more, i)
  {
    var m := postings[i];
    assert (history + later)[..m.at] == history[..m.at] && (postings + more)[..i] == postings[..i];
  }

  // ---- Channels and patterns ----

  /** Those of one kind. */
  function Own(owners: seq<Subscriber>, pattern: bool): (r: seq<Subscriber>)
    ensures forall s :: s in r <==> s in owners && s.pattern == pattern
  {
    if owners == [] then []
    else (if owners[0].pattern == pattern then [owners[0]] else []) + Own(owners[1..], pattern)
  }

  /** Whom a message under a key reaches, and whom it is meant for. */
  function Recipients(history: seq<Change>, postings: seq<Posting>, key: string): seq<Subscriber> {
    Oldest(Waiting(history, postings, key)) + Owners(Live(history, key))
  }

  function Intended(history: seq<Change>, postings: seq<Posting>, key: string, pattern: bool): seq<Subscriber> {
    Oldest(Own(Waiting(history, postings, key), pattern)) + Own(Owners(Live(history, key)), pattern)
  }

  lemma {:induction false} OwnIsAll(owners: seq<Subscriber>, pattern: bool)
    requires forall s :: s in owners ==> s.pattern == pattern
    ensures Own(owners, pattern) == owners
  {
    if owners != [] {
      OwnIsAll(owners[1..], pattern);
    }
  }

  /** What one reaches and what one is meant for agree when all reached are of its kind. */
  lemma ReachesTheIntended(history: seq<Change>, postings: seq<Posting>, key: string, pattern: bool)
    ensures Recipients(history, postings, key) == Intended(history, postings, key, pattern) <==>
            forall s :: s in Recipients(history, postings, key) ==> s.pattern == pattern
  {
    var waiting, live := Waiting(history, postings, key), Owners(Live(history, key));
    var actual := Recipients(history, postings, key);
    if forall s :: s in actual ==> s.pattern == pattern {
      assert forall s :: s in live ==> s in actual;
      OwnIsAll(live, pattern);
      assert waiting != [] ==> waiting[0] in actual;
    } else {
      var s :| s in actual && s.pattern != pattern;
      assert s !in Intended(history, postings, key, pattern);
    }
  }

  /** A message reaches exactly those it is meant for if and only if every subscription under its
      key that was made and not taken back is of its kind, and so is the oldest single shot
      waiting there, if any. */
  lemma KindsUnderKey(history: seq<Change>, postings: seq<Posting>, key: string, pattern: bool)
    ensures Recipients(history, postings, key) == Intended(history, postings, key, pattern) <==>
            && (forall i: nat, id: nat, owner ::
                  Standing(history, i, key, id, owner) ==> owner.pattern == pattern)
            && (var w := Waiting(history, postings, key); w == [] || w[0].pattern == pattern)
  {
    hide Standing, Waiting, Live, Intended, Recipients;
    ReachesTheIntended(history, postings, key, pattern);
    RecipientsAre(history, postings, key);
    var reached := Recipients(history, postings, key);
    forall i: nat, id: nat, owner | Standing(history, i, key, id, owner)
      ensures owner in reached
    {
      LiveMeans(history, key, id, owner);
      assert (id, owner) in Live(history, key);
    }
    forall s | s in reached && !(var w := Waiting(history, postings, key); w != [] && w[0] == s)
      ensures exists i: nat, id: nat :: Standing(history, i, key, id, s)
    {
      var id: nat :| (id, s) in Live(history, key);
      LiveMeans(history, key, id, s);
    }
  }

  lemma RecipientsAre(history: seq<Change>, postings: seq<Posting>, key: string)
    ensures forall s :: s in Recipients(history, postings, key) <==>
              || (var w := Waiting(history, postings, key); w != [] && w[0] == s)
              || exists id: nat :: (id, s) in Live(history, key)
  {
    hide Live, Waiting;
    var live := Live(history, key);
    forall s
      ensures s in Owners(live) <==> exists id: nat :: (id, s) in live
    {
      if s in Owners(live) {
        var i :| 0 <= i < |live| && Owners(live)[i] == s;
        assert (live[i].0, s) == live[i];
      }
      if id: nat :| (id, s) in live {
        var i :| 0 <= i < |live| && live[i] == (id, s);
        assert Owners(live)[i] == s;
      }
    }
  }

  /** Every subscriber under a key was put there by a call with that key. */
  lemma {:induction false} OwnersCameFromCalls(history: seq<Change>, key: string, pattern: bool)
    requires forall e :: e in history && !e.Removed? && e.channel == key ==> e.pattern == pattern
    ensures forall s :: s in ShotsOf(history, key) ==> s.pattern == pattern
    ensures forall e :: e in Live(history, key) ==> e.1.pattern == pattern
    decreases |history|
  {
    if history != [] {
      OwnersCameFromCalls(history[..|history| - 1], key, pattern);
      assert history[|history| - 1] in history;
    }
  }

  lemma RecipientsCameFromCalls(history: seq<Change>, postings: seq<Posting>, key: string, pattern: bool)
    requires forall e :: e in history && !e.Removed? && e.channel == key ==> e.pattern == pattern
    ensures forall s :: s in Recipients(history, postings, key) ==> s.pattern == pattern
  {
    OwnersCameFromCalls(history, key, pattern);
    var waiting, live := Waiting(history, postings, key), Live(history, key);
    forall s | s in Recipients(history, postings, key)
      ensures s.pattern == pattern
    {
      if waiting != [] && s == waiting[0] {
        assert s in ShotsOf(history, key);
      } else {
        var i :| 0 <= i < |live| && Owners(live)[i] == s;
        assert live[i] in live;
      }
    }
  }

  // ---- One message ----

  /** A message as Redis pushes it: ["message", channel, payload] to the subscribers of a channel,
      ["pmessage", pattern, channel, payload] to those of a pattern. */
  function Message(pattern: bool, key: string, channel: string, payload: string): RedisValue {
    if pattern then Array([Str("pmessage", false), Str(key, false), Str(channel, false), Str(payload, false)])
    else Array([Str("message", false), Str(key, false), Str(payload, false)])
  }

  /** It goes to the handlers stored under its channel or pattern. */
  lemma MessageIsDispatched(react: React, c: Client, pattern: bool, key: string, channel: string, payload: string)
    requires c.state == Subscribed
    ensures Process(react, c, Message(pattern, key, channel, payload)) == Dispatch(c, pattern, key, payload)
  {
    hide Dispatch;
  }

  lemma PushIsDispatched(react: React, c: Client, v: RedisValue)
    requires c.state == Subscribed && IsPush(v)
    ensures var result := v.ToArray();
            Process(react, c, v)
            == Dispatch(c, result[0].ToByteArray() == PMESSAGE, PushKey(result), PushPayload(result))
  {
  }

  /** The callbacks posted, one by one, and what else changes: nothing under another key. */
  lemma DispatchPosts(c: Client, pattern: bool, key: string, payload: string)
    ensures var r := Dispatch(c, pattern, key, payload);
            var shots, entries := Under(c.singleShotMsgHandlers, key), Under(c.msgHandlers, key);
            var first := if shots == [] then 0 else 1;
            && c.strand <= r.strand && |r.strand| == |c.strand| + first + |entries|
            && (first == 1 ==> r.strand[|c.strand|] == Notify(shots[0], payload))
            && (forall i :: 0 <= i < |entries| ==> r.strand[|c.strand| + first + i] == Notify(entries[i].1, payload))
            && Under(r.singleShotMsgHandlers, key) == shots[first..]
            && (forall k :: k != key ==> Under(r.singleShotMsgHandlers, k) == Under(c.singleShotMsgHandlers, k))
            && r.msgHandlers == c.msgHandlers && r.log.history == c.log.history
            && r.handlers == c.handlers && r.log.called == c.log.called
  {
    var shots, entries := Under(c.singleShotMsgHandlers, key), Under(c.msgHandlers, key);
    var first := if shots == [] then [] else [Notify(shots[0], payload)];
    assert Dispatch(c, pattern, key, payload).strand == c.strand + first + Notices(entries, payload);
  }

  /** The same as one list: a dispatch posts the calls of the posting it logs. */
  lemma DispatchNotifies(c: Client, pattern: bool, key: string, payload: string)
    ensures var r := Dispatch(c, pattern, key, payload);
            && |r.log.postings| == |c.log.postings| + 1 && c.log.postings <= r.log.postings
            && Notified(r.strand) == Notified(c.strand) + CallsOf(r.log.postings[|c.log.postings|])
  {
    hide Notified, CallsOf, Notices;
    var shots, entries := Under(c.singleShotMsgHandlers, key), Under(c.msgHandlers, key);
    var first := if shots == [] then [] else [Notify(shots[0], payload)];
    assert Dispatch(c, pattern, key, payload).strand == c.strand + (first + Notices(entries, payload));
    PostingNotifies(c.strand, shots, entries, Dispatch(c, pattern, key, payload).log.postings[|c.log.postings|]);
  }

  lemma PostingNotifies(strand: seq<Task>, shots: seq<Callback>, entries: seq<(nat, Callback)>, m: Posting)
    requires m.shots == Oldest(shots) && m.entries == entries
    ensures var first := if shots == [] then [] else [Notify(shots[0], m.payload)];
            Notified(strand + (first + Notices(entries, m.payload))) == Notified(strand) + CallsOf(m)
  {
    hide Notices;
    var first := if shots == [] then [] else [Notify(shots[0], m.payload)];
    NoticesNotify(entries, m.payload);
    NotifiedAppend(first, Notices(entries, m.payload));
    NotifiedAppend(strand, first + Notices(entries, m.payload));
    assert first != [] ==> first[1..] == [];
  }
}
