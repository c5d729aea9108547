/**
 The bounded event ring of a graph and its subscribers: every pushed event gets
 the next cursor, the oldest are evicted beyond the capacity, and a subscriber
 asks for what it has not seen.  Both the native runtime and the browser worker
 (capacity 64) keep one.
 */
module EventRing {

  datatype Event<+K> = Event(cursor: nat, kind: K)

  /** Which replica an event comes from. */
  datatype Sourced<+K> = Local(kind: K) | Remote(kind: K)

  datatype Ring<+K> = Ring(events: seq<Event<K>>, capacity: nat, nextCursor: nat)

  datatype Batch<+K> =
    | Events(events: seq<Event<K>>, nextCursor: nat)
    | ResyncRequired(oldest: nat, latest: nat)

  function Start<K>(capacity: nat): Ring<K> {
    Ring([], capacity, 1)
  }

  function Trimmed<K>(events: seq<Event<K>>, capacity: nat): seq<Event<K>> {
    if |events| > capacity then events[|events| - capacity..] else events
  }

  /** Evicts from the front until the ring fits. */
  method Trim<K>(events: seq<Event<K>>, capacity: nat) returns (kept: seq<Event<K>>)
    ensures kept == Trimmed(events, capacity)
  {
    kept := events;
    ghost var gone := 0;
    while |kept| > capacity
      invariant 0 <= gone <= |events| && kept == events[gone..]
      invariant gone > 0 ==> |kept| >= capacity
    {
      kept := kept[1..];
      gone := gone + 1;
    }
  }

  function Push<K>(ring: Ring<K>, kind: K): Ring<K> {
    Ring(Trimmed(ring.events + [Event(ring.nextCursor, kind)], ring.capacity), ring.capacity, ring.nextCursor + 1)
  }

  function After<K>(events: seq<Event<K>>, cursor: nat): seq<Event<K>> {
    if events == [] then []
    else After(events[..|events| - 1], cursor) +
         if events[|events| - 1].cursor > cursor then [events[|events| - 1]] else []
  }

  function Subscribe<K>(ring: Ring<K>, cursor: nat): Batch<K>
    requires ring.nextCursor > 0
  {
    var latest := ring.nextCursor - 1;
    var oldest := if ring.events == [] then ring.nextCursor else ring.events[0].cursor;
    if cursor + 1 < oldest then ResyncRequired(oldest, latest) else Events(After(ring.events, cursor), latest)
  }

  // ------------------------------------------------------- the ring and its history

  /** The ring is the end of everything ever pushed, numbered from one. */
  ghost predicate Holds<K>(ring: Ring<K>, all: seq<K>) {
    && ring.capacity > 0 && ring.nextCursor == |all| + 1
    && |ring.events| == (if |all| < ring.capacity then |all| else ring.capacity)
    && forall i :: 0 <= i < |ring.events| ==>
         ring.events[i] == Event(|all| - |ring.events| + i + 1, all[|all| - |ring.events| + i])
  }

  lemma PushHolds<K>(ring: Ring<K>, all: seq<K>, kind: K)
    requires Holds(ring, all)
    ensures Holds(Push(ring, kind), all + [kind])
  {
  }

  /** Cursors are consecutive and end just below the next one. */
  lemma CursorsAreConsecutive<K>(ring: Ring<K>, all: seq<K>)
    requires Holds(ring, all)
    ensures forall i :: 0 <= i < |ring.events| ==> ring.events[i].cursor == ring.nextCursor - |ring.events| + i
  {
  }

  lemma {:induction false} AfterConsecutive<K>(events: seq<Event<K>>, first: nat, cursor: nat)
    requires forall i :: 0 <= i < |events| ==> events[i].cursor == first + i
    requires first <= cursor + 1
    ensures After(events, cursor) == if cursor + 1 - first <= |events| then events[cursor + 1 - first..] else []
  {
    if events != [] {
      var front, last := events[..|events| - 1], events[|events| - 1];
      AfterConsecutive(front, first, cursor);
      var k := cursor + 1 - first;
      if k < |events| {
        assert last.cursor > cursor && events[k..] == front[k..] + [last];
      } else {
        assert last.cursor <= cursor;
      }
    }
  }

  /** What one poll may answer to a subscriber that has seen `cursor` events. */
  ghost predicate Answers<K>(batch: Batch<K>, ring: Ring<K>, all: seq<K>, cursor: nat)
    requires cursor <= |all|
  {
    match batch
    case Events(events, next) =>
      && next == |all| && |events| == |all| - cursor
      && forall i :: 0 <= i < |events| ==> events[i] == Event(cursor + i + 1, all[cursor + i])
    case ResyncRequired(oldest, latest) =>
      latest == |all| && oldest == |all| - |ring.events| + 1 && cursor < oldest - 1
  }

  /** An event the subscriber has not seen is no longer in the ring. */
  ghost predicate UnseenEvicted<K>(ring: Ring<K>, all: seq<K>, cursor: nat) {
    exists c :: cursor < c <= |all| && !InRing(ring, c)
  }

  ghost predicate InRing<K>(ring: Ring<K>, cursor: nat) {
    exists i :: 0 <= i < |ring.events| && ring.events[i].cursor == cursor
  }

  lemma SubscribeIsExact<K>(ring: Ring<K>, all: seq<K>, cursor: nat)
    requires Holds(ring, all) && cursor <= |all|
    ensures Answers(Subscribe(ring, cursor), ring, all, cursor)
    ensures Subscribe(ring, cursor).ResyncRequired? <==> UnseenEvicted(ring, all, cursor)
  {
    if cursor + 1 < |all| - |ring.events| + 1 {
      EvictedIsGone(ring, all, cursor);
    } else {
      RestIsThere(ring, all, cursor);
    }
  }

  lemma EvictedIsGone<K>(ring: Ring<K>, all: seq<K>, cursor: nat)
    requires Holds(ring, all) && cursor <= |all| && cursor + 1 < |all| - |ring.events| + 1
    ensures Subscribe(ring, cursor).ResyncRequired? && UnseenEvicted(ring, all, cursor)
    ensures Answers(Subscribe(ring, cursor), ring, all, cursor)
  {
    hide After;
    assert !InRing(ring, cursor + 1);
  }

  lemma RestIsThere<K>(ring: Ring<K>, all: seq<K>, cursor: nat)
    requires Holds(ring, all) && cursor <= |all| && |all| - |ring.events| <= cursor
    ensures Subscribe(ring, cursor).Events? && !UnseenEvicted(ring, all, cursor)
    ensures Answers(Subscribe(ring, cursor), ring, all, cursor)
  {
    hide After;
    var first := |all| - |ring.events| + 1;
    AfterConsecutive(ring.events, first, cursor);
    forall c | cursor < c <= |all| ensures InRing(ring, c) {
      assert ring.events[c - first].cursor == c;
    }
  }

  // ----------------------------------------------------------------- a follower

  /** The ring at one poll, with everything pushed before it. */
  datatype Poll<+K> = Poll(ring: Ring<K>, all: seq<K>)

  /** What a follower has received: a resync stops the stream. */
  datatype Follower<+K> = Following(seen: seq<Event<K>>, cursor: nat) | Resync(cursor: nat, at: nat)

  /** The subscriber passes `next_cursor` back on every poll. */
  function Follow<K>(polls: seq<Poll<K>>, n: nat): Follower<K>
    requires n <= |polls| && forall i :: 0 <= i < |polls| ==> polls[i].ring.nextCursor > 0
  {
    if n == 0 then Following([], 0) else
      var before := Follow(polls, n - 1);
      if before.Resync? then before else
        match Subscribe(polls[n - 1].ring, before.cursor)
        case Events(events, next) => Following(before.seen + events, next)
        case ResyncRequired(_, _) => Resync(before.cursor, n - 1)
  }

  /** Polls of one run: the history only grows. */
  ghost predicate OneRun<K>(polls: seq<Poll<K>>) {
    && (forall i :: 0 <= i < |polls| ==> Holds(polls[i].ring, polls[i].all))
    && (forall i, j :: 0 <= i <= j < |polls| ==> polls[i].all <= polls[j].all)
  }

  function AllBefore<K>(polls: seq<Poll<K>>, n: nat): seq<K>
    requires n <= |polls|
  {
    if n == 0 then [] else polls[n - 1].all
  }

  /** Where a follower stands after its first `n` polls. */
  ghost predicate Received<K>(polls: seq<Poll<K>>, n: nat, follower: Follower<K>)
    requires n <= |polls|
  {
    match follower
    case Following(seen, cursor) =>
      && cursor == |seen| == |AllBefore(polls, n)|
      && forall i :: 0 <= i < |seen| ==> seen[i] == Event(i + 1, AllBefore(polls, n)[i])
    case Resync(cursor, at) =>
      && at < n && cursor == |AllBefore(polls, at)| <= |polls[at].all|
      && UnseenEvicted(polls[at].ring, polls[at].all, cursor)
  }

  lemma FollowStep<K>(polls: seq<Poll<K>>, n: nat, seen: seq<Event<K>>, cursor: nat)
    requires 0 < n <= |polls| && Holds(polls[n - 1].ring, polls[n - 1].all)
    requires AllBefore(polls, n - 1) <= polls[n - 1].all && Received(polls, n - 1, Following(seen, cursor))
    ensures match Subscribe(polls[n - 1].ring, cursor)
            case Events(events, next) => Received(polls, n, Following(seen + events, next))
            case ResyncRequired(_, _) => Received(polls, n, Resync(cursor, n - 1))
  {
    hide UnseenEvicted, Subscribe, Holds;
    var poll := polls[n - 1];
    SubscribeIsExact(poll.ring, poll.all, cursor);
    assert forall i :: 0 <= i < cursor ==> AllBefore(polls, n - 1)[i] == poll.all[i];
  }

  /** A follower has received every event exactly once and in order, or was told to
      resync at the first poll where an event it had not seen was already evicted. */
  lemma {:induction false} ExactlyOnce<K>(polls: seq<Poll<K>>, n: nat)
    requires OneRun(polls) && n <= |polls|
    ensures Received(polls, n, Follow(polls, n))
  {
    assert forall i :: 0 <= i < |polls| ==> polls[i].ring.nextCursor > 0;
    hide Subscribe, Holds, UnseenEvicted;
    if n > 0 {
      ExactlyOnce(polls, n - 1);
      var before := Follow(polls, n - 1);
      if before.Following? {
        assert AllBefore(polls, n - 1) <= polls[n - 1].all;
        FollowStep(polls, n, before.seen, before.cursor);
      }
    }
  }
}
