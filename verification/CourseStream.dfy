/** services/course_stream.py: one reader fans course-access changes out to a bounded, lossy queue per open tab. The event loop
    is single threaded, so every step runs alone. */
module CourseStream {
  import opened Common

  type Key = string
  type Queue = nat

  const COURSE_STREAM_QUEUE_MAXSIZE := 16

  // ----- channel names -----

  function Channel(id: string): string {
    "student:" + id + ":courses"
  }

  function StudentIdFromChannel(channel: string): Option<Key> {
    var parts := SplitOn(channel, ':');
    if |parts| == 3 && parts[0] == "student" && parts[2] == "courses" then Some(parts[1]) else None
  }

  lemma ChannelParts(id: Key)
    requires ':' !in id
    ensures SplitOn(Channel(id), ':') == ["student", id, "courses"]
  {
    var head := "student" + [':'] + id;
    SplitPlain("student", ':');
    SplitSnoc("student", ':', id);
    SplitSnoc(head, ':', "courses");
    assert Channel(id) == head + [':'] + "courses";
    assert SplitOn(head, ':') == ["student", id];
  }

  lemma JoinedParts(id: Key)
    ensures Joined(["student", id, "courses"], ':') == Channel(id)
  {
    JoinedSnoc(["student"], ':', id);
    JoinedSnoc(["student", id], ':', "courses");
    assert ["student"] + [id] == ["student", id] && ["student", id] + ["courses"] == ["student", id, "courses"];
  }

  /** A channel belongs to a student exactly when it is that student's channel and the id has no colon. */
  lemma ChannelNamesStudent(channel: string, id: Key)
    ensures StudentIdFromChannel(channel) == Some(id) <==> channel == Channel(id) && ':' !in id
  {
    if channel == Channel(id) && ':' !in id {
      ChannelParts(id);
    }
    if StudentIdFromChannel(channel) == Some(id) {
      var parts := SplitOn(channel, ':');
      SplitJoins(channel, ':');
      SplitFree(channel, ':', 1);
      assert parts == ["student", id, "courses"];
      JoinedParts(id);
    }
  }

  // ----- the hub -----

  /** Per queue, `sent` counts the changes addressed to it and `covered` those before its client last refetched its list. */
  datatype Hub = Hub(subscribers: map<Key, set<Queue>>, contents: map<Queue, seq<string>>, reader: bool, next: Queue,
                     sent: map<Queue, nat>, covered: map<Queue, nat>)

  datatype Event =
    | Subscribe(key: Key)
    | Unregister(key: Key, queue: Queue)
    | Dispatch(channel: string, data: string)
    | Read(queue: Queue)
    | Shutdown

  function Listeners(h: Hub, key: Key): set<Queue> {
    if key in h.subscribers then h.subscribers[key] else {}
  }

  predicate Room(cap: Option<nat>, items: seq<string>) {
    cap.Some? ==> |items| < cap.value
  }

  function Deliver(cap: Option<nat>, h: Hub, queues: set<Queue>, data: string): Hub {
    h.(contents := map q | q in h.contents :: if q in queues && Room(cap, h.contents[q]) then h.contents[q] + [data] else h.contents[q],
       sent := map q | q in h.sent :: if q in queues then h.sent[q] + 1 else h.sent[q])
  }

  function WithoutQueue(h: Hub, key: Key, queue: Queue): Hub {
    var left := Listeners(h, key) - {queue};
    var subscribers := if key !in h.subscribers then h.subscribers
                       else if left == {} then h.subscribers - {key} else h.subscribers[key := left];
    h.(subscribers := subscribers, reader := h.reader && subscribers != map[])
  }

  /** A client that reads a message refetches its whole list, so it then knows every change sent so far. */
  function After(cap: Option<nat>, h: Hub, e: Event): Hub {
    match e
    case Subscribe(key) =>
      Hub(h.subscribers[key := Listeners(h, key) + {h.next}], h.contents[h.next := []], true, h.next + 1,
          h.sent[h.next := 0], h.covered[h.next := 0])
    case Unregister(key, queue) => WithoutQueue(h, key, queue)
    case Dispatch(channel, data) =>
      var id := StudentIdFromChannel(channel);
      if id.None? then h else Deliver(cap, h, Listeners(h, id.value), data)
    case Read(queue) =>
      if queue in h.contents && queue in h.sent && h.contents[queue] != [] then
        h.(contents := h.contents[queue := h.contents[queue][1..]], covered := h.covered[queue := h.sent[queue]])
      else h
    case Shutdown => h.(subscribers := map[], reader := false)
  }

  const Idle := Hub(map[], map[], false, 0, map[], map[])

  function Play(cap: Option<nat>, events: seq<Event>): Hub {
    if events == [] then Idle else After(cap, Play(cap, events[..|events| - 1]), events[|events| - 1])
  }

  ghost predicate Registry(h: Hub) {
    && (h.reader <==> exists key :: key in h.subscribers)
    && (forall key :: key in h.subscribers ==> h.subscribers[key] != {})
    && (forall key, q :: key in h.subscribers && q in h.subscribers[key] ==> q in h.contents)
    && (forall a, b, q :: a in h.subscribers && b in h.subscribers && q in h.subscribers[a] && q in h.subscribers[b] ==> a == b)
    && (forall q :: q in h.contents ==> q < h.next)
  }

  ghost predicate QueueSound(cap: Option<nat>, items: seq<string>, sent: nat, covered: nat) {
    covered <= sent && (cap.Some? ==> |items| <= cap.value) && (items == [] ==> covered == sent)
  }

  ghost predicate Queues(cap: Option<nat>, h: Hub) {
    && h.sent.Keys == h.contents.Keys == h.covered.Keys
    && forall q :: q in h.contents ==> QueueSound(cap, h.contents[q], h.sent[q], h.covered[q])
  }

  lemma SubscribeKeepsRegistry(h: Hub, v: Hub, key: Key)
    requires Registry(h) && v.reader && v.next == h.next + 1 && v.contents.Keys == h.contents.Keys + {h.next}
    requires v.subscribers == h.subscribers[key := Listeners(h, key) + {h.next}]
    ensures Registry(v)
  {
    assert key in v.subscribers && h.next !in h.contents;
  }

  lemma UnregisterKeepsRegistry(h: Hub, key: Key, queue: Queue)
    requires Registry(h)
    ensures Registry(WithoutQueue(h, key, queue))
  {
    var v := WithoutQueue(h, key, queue);
    if v.subscribers != map[] {
      assert v.subscribers.Keys != {};
      var left :| left in v.subscribers;
      assert left in h.subscribers;
    }
  }

  lemma SameRegistry(h: Hub, v: Hub)
    requires Registry(h) && v.subscribers == h.subscribers && v.reader == h.reader && v.next == h.next && v.contents.Keys == h.contents.Keys
    ensures Registry(v)
  {
  }

  lemma EventKeepsRegistry(cap: Option<nat>, h: Hub, e: Event)
    requires Registry(h)
    ensures Registry(After(cap, h, e))
  {
    match e
    case Subscribe(key) => SubscribeKeepsRegistry(h, After(cap, h, e), key);
    case Unregister(key, queue) => UnregisterKeepsRegistry(h, key, queue);
    case Dispatch(_, _) => SameRegistry(h, After(cap, h, e));
    case Read(_) => SameRegistry(h, After(cap, h, e));
    case Shutdown =>
  }

  lemma DeliverKeepsQueues(cap: Option<nat>, h: Hub, queues: set<Queue>, data: string)
    requires Queues(cap, h) && (cap.Some? ==> cap.value > 0)
    ensures Queues(cap, Deliver(cap, h, queues, data))
  {
    var v := Deliver(cap, h, queues, data);
    forall q | q in v.contents ensures QueueSound(cap, v.contents[q], v.sent[q], v.covered[q]) {
      assert QueueSound(cap, h.contents[q], h.sent[q], h.covered[q]);
    }
  }

  /** At most one queue is new or read. */
  lemma OneQueueKeepsQueues(cap: Option<nat>, h: Hub, v: Hub, q: Queue, items: seq<string>, sent: nat, covered: nat)
    requires Queues(cap, h) && QueueSound(cap, items, sent, covered)
    requires v.contents == h.contents[q := items] && v.sent == h.sent[q := sent] && v.covered == h.covered[q := covered]
    ensures Queues(cap, v)
  {
    forall r | r in v.contents ensures QueueSound(cap, v.contents[r], v.sent[r], v.covered[r]) {
      assert r != q ==> QueueSound(cap, h.contents[r], h.sent[r], h.covered[r]);
    }
  }

  lemma ReadKeepsQueues(cap: Option<nat>, h: Hub, q: Queue)
    requires Queues(cap, h)
    ensures Queues(cap, After(cap, h, Read(q)))
  {
    if q in h.contents && h.contents[q] != [] {
      assert QueueSound(cap, h.contents[q], h.sent[q], h.covered[q]);
      assert h.sent == h.sent[q := h.sent[q]];
      OneQueueKeepsQueues(cap, h, After(cap, h, Read(q)), q, h.contents[q][1..], h.sent[q], h.sent[q]);
    }
  }

  lemma EventKeepsQueues(cap: Option<nat>, h: Hub, e: Event)
    requires Queues(cap, h) && (cap.Some? ==> cap.value > 0)
    ensures Queues(cap, After(cap, h, e))
  {
    match e
    case Dispatch(channel, data) =>
      var id := StudentIdFromChannel(channel);
      if id.Some? {
        DeliverKeepsQueues(cap, h, Listeners(h, id.value), data);
      }
    case Subscribe(_) => OneQueueKeepsQueues(cap, h, After(cap, h, e), h.next, [], 0, 0);
    case Read(q) => ReadKeepsQueues(cap, h, q);
    case _ =>
  }

  /** After any run: the reader runs exactly while somebody is subscribed, no empty subscriber set is left behind, each queue
      belongs to one student, queues stay within the bound; and a queue that was sent a change since its client's last read
      is not empty, however many puts were dropped. */
  lemma {:induction false} HubInEveryRun(cap: Option<nat>, events: seq<Event>)
    requires cap.Some? ==> cap.value > 0
    ensures Registry(Play(cap, events)) && Queues(cap, Play(cap, events))
    ensures forall q :: q in Play(cap, events).contents && Play(cap, events).covered[q] < Play(cap, events).sent[q] ==>
              Play(cap, events).contents[q] != []
  {
    if events != [] {
      HubInEveryRun(cap, events[..|events| - 1]);
      EventKeepsRegistry(cap, Play(cap, events[..|events| - 1]), events[|events| - 1]);
      EventKeepsQueues(cap, Play(cap, events[..|events| - 1]), events[|events| - 1]);
    }
  }

  /** The bounded hub and one with unbounded queues, side by side. */
  ghost predicate Alike(h: Hub, roomy: Hub) {
    && h.subscribers == roomy.subscribers && h.reader == roomy.reader && h.next == roomy.next
    && h.sent == roomy.sent && h.covered == roomy.covered && h.contents.Keys == roomy.contents.Keys
    && forall q :: q in h.contents ==> |h.contents[q]| <= |roomy.contents[q]|
  }

  lemma DeliverKeepsAlike(cap: Option<nat>, h: Hub, roomy: Hub, queues: set<Queue>, data: string)
    requires Alike(h, roomy)
    ensures Alike(Deliver(cap, h, queues, data), Deliver(None, roomy, queues, data))
  {
  }

  /** Reading an empty bounded queue does nothing, and an unbounded one then has nothing new to tell either. */
  lemma ReadKeepsAlike(cap: Option<nat>, h: Hub, roomy: Hub, q: Queue)
    requires Queues(cap, h) && Queues(None, roomy) && Alike(h, roomy)
    ensures Alike(After(cap, h, Read(q)), After(None, roomy, Read(q)))
  {
    if q in h.contents {
      assert QueueSound(cap, h.contents[q], h.sent[q], h.covered[q]);
      if h.contents[q] == [] {
        assert h.covered[q := h.sent[q]] == h.covered;
      }
    }
  }

  lemma EventKeepsAlike(cap: Option<nat>, h: Hub, roomy: Hub, e: Event)
    requires Queues(cap, h) && Queues(None, roomy) && Alike(h, roomy)
    ensures Alike(After(cap, h, e), After(None, roomy, e))
  {
    match e
    case Read(q) => ReadKeepsAlike(cap, h, roomy, q);
    case Dispatch(channel, data) =>
      var id := StudentIdFromChannel(channel);
      if id.Some? {
        DeliverKeepsAlike(cap, h, roomy, Listeners(h, id.value), data);
      }
    case Subscribe(_) => SubscribeKeepsAlike(h, roomy, After(cap, h, e), After(None, roomy, e));
    case _ =>
  }

  lemma SubscribeKeepsAlike(h: Hub, roomy: Hub, v: Hub, u: Hub)
    requires Alike(h, roomy) && v.subscribers == u.subscribers && v.reader == u.reader && v.next == u.next
    requires v.contents == h.contents[h.next := []] && u.contents == roomy.contents[h.next := []]
    requires v.sent == u.sent && v.covered == u.covered
    ensures Alike(v, u)
  {
  }

  /** Dropping is invisible: under the same events every client knows, at every moment, exactly what it would know with
      unbounded queues. */
  lemma {:induction false} LossyIsEnough(cap: Option<nat>, events: seq<Event>)
    requires cap.Some? ==> cap.value > 0
    ensures Alike(Play(cap, events), Play(None, events))
  {
    if events != [] {
      var front := events[..|events| - 1];
      LossyIsEnough(cap, front);
      HubInEveryRun(cap, front);
      HubInEveryRun(None, front);
      EventKeepsAlike(cap, Play(cap, front), Play(None, front), events[|events| - 1]);
    }
  }

  /** A change reaches exactly the tabs its student has open. */
  lemma ChangeReachesSubscribers(cap: Option<nat>, h: Hub, id: Key, data: string, q: Queue)
    requires Registry(h) && Queues(cap, h) && q in h.contents && ':' !in id && (cap.Some? ==> cap.value > 0)
    ensures var v := After(cap, h, Dispatch(Channel(id), data));
            && (v.sent[q] == h.sent[q] + 1 <==> id in h.subscribers && q in h.subscribers[id])
            && (id in h.subscribers && q in h.subscribers[id] ==> v.contents[q] != [] && h.contents[q] <= v.contents[q])
  {
    ChannelNamesStudent(Channel(id), id);
  }

  /** What a change adds to a queue: itself, if the queue is its student's and has room. */
  lemma ChangeQueues(cap: Option<nat>, h: Hub, id: Key, data: string, q: Queue)
    requires q in h.contents && q in h.sent && ':' !in id
    ensures var v, mine := After(cap, h, Dispatch(Channel(id), data)), id in h.subscribers && q in h.subscribers[id];
            && v.contents.Keys == h.contents.Keys && v.covered == h.covered && v.subscribers == h.subscribers && v.reader == h.reader
            && v.contents[q] == (if mine && (cap == None || |h.contents[q]| < cap.value) then h.contents[q] + [data] else h.contents[q])
            && v.sent[q] == h.sent[q] + if mine then 1 else 0
  {
    ChannelNamesStudent(Channel(id), id);
  }

  /** A channel that is no student's changes nothing. */
  lemma ForeignChannel(cap: Option<nat>, h: Hub, channel: string, data: string)
    requires forall id: Key :: channel == Channel(id) ==> ':' in id
    ensures After(cap, h, Dispatch(channel, data)) == h
  {
    if StudentIdFromChannel(channel).Some? {
      ChannelNamesStudent(channel, StudentIdFromChannel(channel).value);
    }
  }

  /** A client takes the oldest message, and then knows all that was sent; no other queue moves. */
  lemma ReadTakesOldest(cap: Option<nat>, h: Hub, q: Queue, other: Queue)
    requires Queues(cap, h) && q in h.contents && other in h.contents
    ensures var v := After(cap, h, Read(q));
            && v.contents.Keys == h.contents.Keys && v.sent == h.sent && v.subscribers == h.subscribers && v.reader == h.reader
            && (h.contents[q] == [] ==> v == h)
            && (h.contents[q] != [] ==> h.contents[q] == [h.contents[q][0]] + v.contents[q] && v.covered[q] == h.sent[q])
            && (other != q ==> v.contents[other] == h.contents[other] && v.covered[other] == h.covered[other])
  {
  }

  // ----- who is subscribed -----

  /** How many tabs have been opened: queues are numbered as they come. */
  function TabsOpened(events: seq<Event>): nat {
    if events == [] then 0 else TabsOpened(events[..|events| - 1]) + if events[|events| - 1].Subscribe? then 1 else 0
  }

  /** Opened for this student, and not torn down or shut down since. */
  ghost predicate Attached(events: seq<Event>, key: Key, q: Queue) {
    && events != []
    && var front, e := events[..|events| - 1], events[|events| - 1];
       || (e == Subscribe(key) && q == TabsOpened(front))
       || (Attached(front, key, q) && e != Unregister(key, q) && e != Shutdown)
  }

  lemma EventAttaches(cap: Option<nat>, h: Hub, e: Event, key: Key, q: Queue)
    ensures q in Listeners(After(cap, h, e), key) <==>
            (e == Subscribe(key) && q == h.next) || (q in Listeners(h, key) && e != Unregister(key, q) && e != Shutdown)
    ensures After(cap, h, e).next == h.next + if e.Subscribe? then 1 else 0
  {
  }

  lemma {:induction false} SubscribedIffAttached(cap: Option<nat>, events: seq<Event>, key: Key, q: Queue)
    ensures q in Listeners(Play(cap, events), key) <==> Attached(events, key, q)
    ensures Play(cap, events).next == TabsOpened(events)
  {
    if events != [] {
      SubscribedIffAttached(cap, events[..|events| - 1], key, q);
      EventAttaches(cap, Play(cap, events[..|events| - 1]), events[|events| - 1], key, q);
    }
  }

  /** Over every run the hub holds exactly the open tabs of each student, and the reader runs exactly while there is one. */
  lemma TabsAndReader(cap: Option<nat>, events: seq<Event>)
    requires cap.Some? ==> cap.value > 0
    ensures forall key, q :: q in Listeners(Play(cap, events), key) <==> Attached(events, key, q)
    ensures Play(cap, events).reader <==> exists key, q :: Attached(events, key, q)
  {
    var h := Play(cap, events);
    forall key, q ensures q in Listeners(h, key) <==> Attached(events, key, q) {
      SubscribedIffAttached(cap, events, key, q);
    }
    HubInEveryRun(cap, events);
    if h.reader {
      var key :| key in h.subscribers;
      var q :| q in h.subscribers[key];
      assert q in Listeners(h, key);
    }
    if key, q :| Attached(events, key, q) {
      assert q in Listeners(h, key);
    }
  }

  lemma DeliverNobody(cap: Option<nat>, h: Hub, data: string)
    ensures Deliver(cap, h, {}, data) == h
  {
  }

  lemma DeliverOneMore(cap: Option<nat>, h: Hub, done: set<Queue>, q: Queue, data: string)
    requires q !in done
    ensures Deliver(cap, Deliver(cap, h, done, data), {q}, data) == Deliver(cap, h, done + {q}, data)
    ensures q in h.contents && q in h.sent ==> q in Deliver(cap, h, done, data).contents && q in Deliver(cap, h, done, data).sent
  {
    var twice, once := Deliver(cap, Deliver(cap, h, done, data), {q}, data), Deliver(cap, h, done + {q}, data);
    assert twice.contents == once.contents && twice.sent == once.sent;
  }

  // ----- the module's globals -----

  class Stream {
    var subscribers: map<Key, set<Queue>>
    var contents: map<Queue, seq<string>>
    var reader: bool
    var next: Queue
    ghost var sent: map<Queue, nat>
    ghost var covered: map<Queue, nat>

    constructor ()
      ensures State() == Idle
    {
      subscribers, contents, reader, next, sent, covered := map[], map[], false, 0, map[], map[];
    }

    ghost function State(): Hub
      reads this
    {
      Hub(subscribers, contents, reader, next, sent, covered)
    }

    /** subscribe up to its yield; the teardown is UnregisterQueue. */
    method Open(key: Key) returns (queue: Queue)
      modifies this
      ensures State() == After(Some(COURSE_STREAM_QUEUE_MAXSIZE), old(State()), Subscribe(key)) && queue == old(next)
    {
      queue := next;
      next := next + 1;
      contents, sent, covered := contents[queue := []], sent[queue := 0], covered[queue := 0];
      var before := if key in subscribers then subscribers[key] else {};
      subscribers := subscribers[key := before + {queue}];
      if !reader {
        reader := true;
      }
    }

    method UnregisterQueue(key: Key, queue: Queue)
      modifies this`subscribers, this`reader
      ensures State() == After(Some(COURSE_STREAM_QUEUE_MAXSIZE), old(State()), Unregister(key, queue))
    {
      if key in subscribers {
        var left := subscribers[key] - {queue};
        if left == {} {
          subscribers := subscribers - {key};
        } else {
          subscribers := subscribers[key := left];
        }
      }
      if subscribers == map[] {
        reader := false;
      }
    }

    /** put_nowait, with QueueFull swallowed. */
    method PutNowait(queue: Queue, data: string)
      requires queue in contents && queue in sent
      modifies this`contents, this`sent
      ensures State() == Deliver(Some(COURSE_STREAM_QUEUE_MAXSIZE), old(State()), {queue}, data)
    {
      if |contents[queue]| < COURSE_STREAM_QUEUE_MAXSIZE {
        contents := contents[queue := contents[queue] + [data]];
      }
      sent := sent[queue := sent[queue] + 1];
      ghost var v := Deliver(Some(COURSE_STREAM_QUEUE_MAXSIZE), old(State()), {queue}, data);
      assert contents == v.contents && sent == v.sent;
    }

    method DispatchChange(channel: string, data: string)
      requires contents.Keys == sent.Keys && forall key :: key in subscribers ==> subscribers[key] <= contents.Keys
      modifies this`contents, this`sent
      ensures State() == After(Some(COURSE_STREAM_QUEUE_MAXSIZE), old(State()), Dispatch(channel, data))
    {
      var id := StudentIdFromChannel(channel);
      if id.Some? {
        PutAll(if id.value in subscribers then subscribers[id.value] else {}, data);
      }
    }

    method PutAll(listeners: set<Queue>, data: string)
      requires contents.Keys == sent.Keys && listeners <= contents.Keys
      modifies this`contents, this`sent
      ensures State() == Deliver(Some(COURSE_STREAM_QUEUE_MAXSIZE), old(State()), listeners, data)
    {
      ghost var h, done: set<Queue> := State(), {};
      var todo := listeners;
      DeliverNobody(Some(COURSE_STREAM_QUEUE_MAXSIZE), h, data);
      while todo != {}
        invariant done == listeners - todo && todo <= listeners
        invariant State() == Deliver(Some(COURSE_STREAM_QUEUE_MAXSIZE), h, done, data)
        decreases todo
      {
        var queue :| queue in todo;
        assert queue in h.contents && queue in h.sent;
        DeliverOneMore(Some(COURSE_STREAM_QUEUE_MAXSIZE), h, done, queue, data);
        PutNowait(queue, data);
        todo, done := todo - {queue}, done + {queue};
      }
      assert done == listeners;
    }

    method ShutDown()
      modifies this`subscribers, this`reader
      ensures State() == After(Some(COURSE_STREAM_QUEUE_MAXSIZE), old(State()), Shutdown)
    {
      subscribers := map[];
      reader := false;
    }
  }
}
