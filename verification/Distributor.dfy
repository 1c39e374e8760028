/** The request distributor (les/distributor.go). Requests and peers are identifiers; a request's order, its channel and
    its place in the queue are the distributor's. What the callbacks answer is a parameter that stays the same during
    one search for the next request. Waiting and waking up are left out. */
module Distributors {
  import opened Basics

  type Req = nat
  type Peer = nat
  type Channel = nat

  /** What canQueue, canSend and waitBefore say of sending a request to a peer now. */
  datatype Answer = Unable | After(wait: nat)

  type Oracle = (Req, Peer) -> Answer

  datatype Candidate = Candidate(peer: Peer, req: Req, wait: nat)

  // ---------------------------------------------------------------- the queue

  ghost predicate Sorted(queue: seq<Req>, order: map<Req, nat>) {
    && (forall i | 0 <= i < |queue| :: queue[i] in order)
    && (forall i, j | 0 <= i < j < |queue| :: order[queue[i]] < order[queue[j]])
  }

  lemma InsertSorted(queue: seq<Req>, order: map<Req, nat>, r: Req, k: nat)
    requires Sorted(queue, order) && r in order && k <= |queue|
    requires forall i | 0 <= i < k :: order[queue[i]] < order[r]
    requires forall i | k <= i < |queue| :: order[r] < order[queue[i]]
    ensures Sorted(queue[..k] + [r] + queue[k..], order)
  {
  }

  lemma RemoveSorted(queue: seq<Req>, order: map<Req, nat>, k: nat)
    requires Sorted(queue, order) && k < |queue|
    ensures Sorted(queue[..k] + queue[k + 1..], order) && queue[k] !in queue[..k] + queue[k + 1..]
    ensures forall x :: x in queue <==> x == queue[k] || x in queue[..k] + queue[k + 1..]
  {
    assert queue == queue[..k] + [queue[k]] + queue[k + 1..];
  }

  /** The place of a request in the queue: behind those with a lower order. */
  method Place(queue: seq<Req>, order: map<Req, nat>, r: Req) returns (k: nat)
    requires Sorted(queue, order) && r in order && forall x | x in queue :: order[x] != order[r]
    ensures k <= |queue| && Sorted(queue[..k] + [r] + queue[k..], order)
    ensures (forall x | x in queue :: order[x] < order[r]) ==> k == |queue|
  {
    if queue == [] || order[r] > order[queue[|queue| - 1]] {
      k := |queue|;
    } else {
      k := 0;
      while order[queue[k]] < order[r]
        invariant k < |queue|
        invariant forall i | 0 <= i < k :: order[queue[i]] < order[r]
        decreases |queue| - k
      {
        k := k + 1;
      }
    }
    InsertSorted(queue, order, r, k);
  }

  // ---------------------------------------------------------------- the search for the next request

  predicate Able(o: Oracle, r: Req, p: Peer) {
    o(r, p).After?
  }

  /** None of the first `n` requests can be sent to the peer. */
  ghost predicate NoneBefore(queue: seq<Req>, o: Oracle, p: Peer, n: nat) {
    n <= |queue| && forall m | 0 <= m < n :: o(queue[m], p) == Unable
  }

  /** The request is the earliest queued one the peer can serve. */
  ghost predicate EarliestFor(queue: seq<Req>, o: Oracle, p: Peer, r: Req) {
    exists j: nat :: j < |queue| && queue[j] == r && o(r, p) != Unable && NoneBefore(queue, o, p, j)
  }

  /** No registered peer can take the request. */
  ghost predicate Hopeless(peers: set<Peer>, o: Oracle, r: Req) {
    forall p | p in peers :: o(r, p) == Unable
  }

  /** What the search knows of a peer after the first `n` requests: not checked and able for none of them, or the
      earliest request it is able for, which is ready to be sent or no sooner than the best candidate. */
  ghost predicate Recorded(queue: seq<Req>, o: Oracle, p: Peer, n: nat, first: map<Peer, nat>, ready: map<Peer, Req>,
                           best: Option<Candidate>)
  {
    if p in first then
      && first[p] < n <= |queue| && NoneBefore(queue, o, p, first[p]) && Able(o, queue[first[p]], p)
      && (o(queue[first[p]], p).wait == 0 ==> p in ready && ready[p] == queue[first[p]])
      && (o(queue[first[p]], p).wait > 0 ==> p !in ready && best.Some? && best.value.wait <= o(queue[first[p]], p).wait)
    else
      p !in ready && NoneBefore(queue, o, p, n)
  }

  /** The best candidate is a peer's earliest request with its waiting time. */
  ghost predicate Waits(queue: seq<Req>, o: Oracle, peers: set<Peer>, best: Option<Candidate>) {
    best.Some? ==>
      && best.value.peer in peers && EarliestFor(queue, o, best.value.peer, best.value.req)
      && o(best.value.req, best.value.peer) == After(best.value.wait) && best.value.wait > 0
  }

  lemma RecordsSkip(queue: seq<Req>, o: Oracle, p: Peer, n: nat, first: map<Peer, nat>, ready: map<Peer, Req>,
                    best: Option<Candidate>)
    requires Recorded(queue, o, p, n, first, ready, best) && n < |queue|
    requires p in first || !Able(o, queue[n], p)
    ensures Recorded(queue, o, p, n + 1, first, ready, best)
  {
  }

  /** Better candidates keep what is known of other peers. */
  lemma RecordsOther(queue: seq<Req>, o: Oracle, p: Peer, n: nat, first: map<Peer, nat>, ready: map<Peer, Req>,
                     best: Option<Candidate>,
                     first': map<Peer, nat>, ready': map<Peer, Req>, best': Option<Candidate>)
    requires Recorded(queue, o, p, n, first, ready, best)
    requires p in first' <==> p in first
    requires p in first ==> first'[p] == first[p]
    requires p in ready' <==> p in ready
    requires p in ready ==> ready'[p] == ready[p]
    requires best.Some? ==> best'.Some? && best'.value.wait <= best.value.wait
    ensures Recorded(queue, o, p, n, first', ready', best')
  {
  }

  /** All peers are recorded: those still to be asked about request `n` up to it, the others past it. */
  ghost predicate Asked(queue: seq<Req>, o: Oracle, peers: set<Peer>, todo: set<Peer>, n: nat, first: map<Peer, nat>,
                        ready: map<Peer, Req>, best: Option<Candidate>)
  {
    && (forall p | p in peers :: Recorded(queue, o, p, if p in todo then n else n + 1, first, ready, best))
    && (forall p | p in ready :: p in peers)
    && Waits(queue, o, peers, best)
  }

  /** Asks every peer that was not able for an earlier request about request `n`. */
  method AskPeers(queue: seq<Req>, o: Oracle, peers: set<Peer>, n: nat, ghost first0: map<Peer, nat>,
                  checked0: set<Peer>,
                  ready0: map<Peer, Req>, best0: Option<Candidate>)
    returns (canSend: bool, ghost first: map<Peer, nat>, checked: set<Peer>, ready: map<Peer, Req>,
             best: Option<Candidate>)
    requires n < |queue| && Asked(queue, o, peers, peers, n, first0, ready0, best0) && checked0 == first0.Keys
    ensures Asked(queue, o, peers, {}, n, first, ready, best) && checked == first.Keys
    ensures canSend <==> exists p :: p in peers && p !in checked0 && Able(o, queue[n], p)
    ensures canSend ==> ready != map[] || best.Some?
    ensures !canSend ==> first == first0 && ready == ready0 && best == best0
  {
    hide Asked;
    canSend, first, checked, ready, best := false, first0, checked0, ready0, best0;
    var todo := peers;
    while todo != {}
      invariant todo <= peers && Asked(queue, o, peers, todo, n, first, ready, best) && checked == first.Keys
      invariant canSend <==> exists p :: p in peers && p !in todo && p !in checked0 && Able(o, queue[n], p)
      invariant forall p | p in todo :: p in checked <==> p in checked0
      invariant canSend ==> ready != map[] || best.Some?
      invariant !canSend ==> first == first0 && ready == ready0 && best == best0
    {
      var p :| p in todo;
      ghost var todo0, first1, ready1, best1 := todo, first, ready, best;
      todo := todo - {p};
      if p !in checked && Able(o, queue[n], p) {
        canSend := true;
        var wait := o(queue[n], p).wait;
        if wait == 0 {
          ready := ready[p := queue[n]];
          assert p in ready;
        } else if best == None || wait < best.value.wait {
          best := Some(Candidate(p, queue[n], wait));
        }
        checked := checked + {p};
        first := first[p := n];
      }
      AskedOne(queue, o, peers, todo0, p, n, first1, ready1, best1, first, ready, best);
    }
  }

  lemma AskedOne(queue: seq<Req>, o: Oracle, peers: set<Peer>, todo: set<Peer>, p: Peer, n: nat, first: map<Peer, nat>,
                 ready: map<Peer, Req>, best: Option<Candidate>, first': map<Peer, nat>, ready': map<Peer, Req>, best': Option<Candidate>)
    requires n < |queue| && p in todo && p in peers && Asked(queue, o, peers, todo, n, first, ready, best)
    requires if p !in first && Able(o, queue[n], p) then
        var wait := o(queue[n], p).wait;
        && first' == first[p := n]
        && ready' == (if wait == 0 then ready[p := queue[n]] else ready)
        && best' == (if wait > 0 && (best == None || wait < best.value.wait) then Some(Candidate(p, queue[n], wait)) else best)
      else first' == first && ready' == ready && best' == best
    ensures Asked(queue, o, peers, todo - {p}, n, first', ready', best')
  {
    forall q | q in peers ensures Recorded(queue, o, q, if q in todo - {p} then n else n + 1, first', ready', best') {
      assert Recorded(queue, o, q, if q in todo then n else n + 1, first, ready, best);
      if q != p {
        RecordsOther(queue, o, q, if q in todo then n else n + 1, first, ready, best, first', ready', best');
      } else if first' == first {
        RecordsSkip(queue, o, p, n, first, ready, best);
      }
    }
    assert best' != best ==> NoneBefore(queue, o, p, n);
  }

  /** Between requests: every peer is recorded for the requests before `n`, and before the first nothing is known. */
  ghost predicate Scanned(queue: seq<Req>, o: Oracle, peers: set<Peer>, n: nat, first: map<Peer, nat>,
                          ready: map<Peer, Req>,
                          best: Option<Candidate>)
  {
    && Asked(queue, o, peers, peers, n, first, ready, best)
    && (n == 0 ==> first == map[] && ready == map[] && best == None)
    && (n > 0 ==> ready != map[] || best.Some?)
    && (n > 0 ==> n <= |queue| && !Hopeless(peers, o, queue[0]))
  }

  lemma ScanStarts(queue: seq<Req>, o: Oracle, peers: set<Peer>)
    ensures Scanned(queue, o, peers, 0, map[], map[], None)
  {
  }

  lemma ScanContinues(queue: seq<Req>, o: Oracle, peers: set<Peer>, n: nat, first: map<Peer, nat>, ready: map<Peer,
                      Req>,
                      best: Option<Candidate>)
    requires n < |queue| && Asked(queue, o, peers, {}, n, first, ready, best) && (ready != map[] || best.Some?)
    requires !Hopeless(peers, o, queue[0])
    ensures Scanned(queue, o, peers, n + 1, first, ready, best)
  {
    hide Recorded, Waits, Hopeless;
    forall p | p in peers ensures Recorded(queue, o, p, n + 1, first, ready, best) {
      assert p !in {};
    }
  }

  /** Nothing was asked of the front: no registered peer can take it. */
  lemma FrontHopeless(queue: seq<Req>, o: Oracle, peers: set<Peer>, canSend: bool)
    requires queue != [] && (canSend <==> exists p :: p in peers && p !in {} && Able(o, queue[0], p))
    ensures !canSend <==> Hopeless(peers, o, queue[0])
  {
    assert !canSend ==> forall p | p in peers :: p !in {} && !Able(o, queue[0], p);
  }

  /** At the end of the search a ready request is its peer's earliest; without one, the candidate with the shortest
      wait is; and without either the queue is empty. */
  lemma ScanEnds(queue: seq<Req>, o: Oracle, peers: set<Peer>, n: nat, first: map<Peer, nat>, ready: map<Peer, Req>,
                 best: Option<Candidate>)
    requires Scanned(queue, o, peers, n, first, ready, best) && n == |queue|
    ensures forall p | p in ready :: p in peers && EarliestFor(queue, o, p, ready[p]) && o(ready[p], p) == After(0)
    ensures Waits(queue, o, peers, best)
    ensures ready == map[] && best == None ==> queue == []
    ensures ready == map[] ==> forall p, r | p in peers && EarliestFor(queue, o, p, r) :: best.Some? && best.value.wait <= o(r, p).wait
  {
    forall p | p in ready ensures p in peers && EarliestFor(queue, o, p, ready[p]) && o(ready[p], p) == After(0) {
      assert Recorded(queue, o, p, n, first, ready, best);
    }
    forall p, r | p in peers && EarliestFor(queue, o, p, r) && ready == map[] ensures best.Some? && best.value.wait <= o(r, p).wait {
      assert Recorded(queue, o, p, n, first, ready, best);
      var j: nat :| j < |queue| && queue[j] == r && o(r, p) != Unable && NoneBefore(queue, o, p, j);
      assert p in first && first[p] == j;
    }
  }

  // ---------------------------------------------------------------- the distributor

  /** Orders are distinct and were given by the counter. */
  ghost predicate Ordered(order: map<Req, nat>, last: nat) {
    && (forall r | r in order :: 0 < order[r] <= last)
    && (forall r, x | r in order && x in order && r != x :: order[r] != order[x])
  }

  /** Each queued request has its own open channel; `idle` says that nothing else has one. */
  ghost predicate Channels(queue: seq<Req>, chans: map<Req, Channel>, closed: set<Channel>, next: nat, stopped: bool) {
    && (forall r | r in chans :: r in queue && chans[r] !in closed && chans[r] < next)
    && (forall r, x | r in chans && x in chans && r != x :: chans[r] != chans[x])
    && (forall c | c in closed :: c < next)
    && (!stopped ==> forall r | r in queue :: r in chans)
  }

  ghost function ChansOf(reqs: seq<Req>, chans: map<Req, Channel>): set<Channel>
    requires forall r | r in reqs :: r in chans
  {
    set r | r in reqs :: chans[r]
  }

  /** The search so far: the first `dropped` requests were hopeless and their channels are closed, the rest is untouched. */
  ghost predicate Searching(queue0: seq<Req>, chans0: map<Req, Channel>, closed0: set<Channel>, peers: set<Peer>,
                            o: Oracle, dropped: nat,
                            queue: seq<Req>, chans: map<Req, Channel>, closed: set<Channel>)
  {
    && dropped <= |queue0| && queue == queue0[dropped..]
    && (forall r | r in queue0 :: r in chans0)
    && (forall r | r in queue :: r in chans && chans[r] == chans0[r])
    && (forall j | 0 <= j < dropped :: Hopeless(peers, o, queue0[j]))
    && closed == closed0 + ChansOf(queue0[..dropped], chans0)
  }

  lemma SearchStarts(queue: seq<Req>, chans: map<Req, Channel>, closed: set<Channel>, next: nat, peers: set<Peer>,
                     o: Oracle)
    requires Channels(queue, chans, closed, next, false)
    ensures Searching(queue, chans, closed, peers, o, 0, queue, chans, closed)
  {
    assert queue[..0] == [];
  }

  lemma SearchDrops(queue0: seq<Req>, chans0: map<Req, Channel>, closed0: set<Channel>, peers: set<Peer>, o: Oracle,
                    dropped: nat,
                    queue: seq<Req>, chans: map<Req, Channel>, closed: set<Channel>)
    requires Searching(queue0, chans0, closed0, peers, o, dropped, queue, chans, closed)
    requires queue != [] && Hopeless(peers, o, queue[0]) && queue[0] !in queue[1..]
    ensures queue[0] in chans && dropped < |queue0| && queue[..0] + queue[1..] == queue0[dropped + 1..]
    ensures Searching(queue0, chans0, closed0, peers, o, dropped + 1, queue[..0] + queue[1..], chans - {queue[0]}, closed + {chans[queue[0]]})
  {
    assert queue0[..dropped + 1] == queue0[..dropped] + [queue[0]];
  }

  lemma SearchIs(queue0: seq<Req>, chans0: map<Req, Channel>, closed0: set<Channel>, peers: set<Peer>, o: Oracle,
                 dropped: nat,
                 queue: seq<Req>, chans: map<Req, Channel>, closed: set<Channel>)
    requires Searching(queue0, chans0, closed0, peers, o, dropped, queue, chans, closed)
    ensures dropped <= |queue0| && queue == queue0[dropped..] && (forall r | r in queue0 :: r in chans0)
    ensures forall r | r in queue :: r in chans && r in chans0 && chans[r] == chans0[r]
    ensures forall j | 0 <= j < dropped :: Hopeless(peers, o, queue0[j])
    ensures closed == closed0 + ChansOf(queue0[..dropped], chans0)
  {
  }

  lemma ScannedIs(queue: seq<Req>, o: Oracle, peers: set<Peer>, n: nat, first: map<Peer, nat>, ready: map<Peer, Req>,
                  best: Option<Candidate>)
    requires Scanned(queue, o, peers, n, first, ready, best)
    ensures Asked(queue, o, peers, peers, n, first, ready, best) && (n == 0 ==> first == map[] && ready == map[] && best == None)
    ensures n > 0 ==> peers != {} && (ready != map[] || best.Some?) && n <= |queue| && !Hopeless(peers, o, queue[0])
  {
  }

  lemma WaitsIs(queue: seq<Req>, o: Oracle, peers: set<Peer>, best: Option<Candidate>)
    requires Waits(queue, o, peers, best) && best.Some?
    ensures best.value.peer in peers && EarliestFor(queue, o, best.value.peer, best.value.req)
    ensures o(best.value.req, best.value.peer) == After(best.value.wait) && best.value.wait > 0
  {
  }

  lemma FrontOnce(queue: seq<Req>, order: map<Req, nat>)
    requires Sorted(queue, order) && queue != []
    ensures queue[0] !in queue[1..]
  {
  }

  lemma EarliestQueued(queue: seq<Req>, o: Oracle, p: Peer, r: Req)
    requires EarliestFor(queue, o, p, r)
    ensures r in queue && queue != []
  {
  }

  lemma QueuedOpen(queue: seq<Req>, chans: map<Req, Channel>, closed: set<Channel>, next: nat, r: Req)
    requires Channels(queue, chans, closed, next, false) && r in queue
    ensures r in chans && chans[r] !in closed
  {
  }

  lemma StopsLoosely(queue: seq<Req>, chans: map<Req, Channel>, closed: set<Channel>, next: nat)
    requires Channels(queue, chans, closed, next, false)
    ensures Channels(queue, chans, closed, next, true) && forall j | 0 <= j < |queue| :: queue[j] in chans
  {
  }

  lemma StopCloses(queue: seq<Req>, order: map<Req, nat>, chans: map<Req, Channel>, closed: set<Channel>, next: nat,
                   i: nat)
    requires Sorted(queue, order) && Channels(queue, chans, closed, next, true) && i < |queue| && queue[i] in chans
    ensures chans[queue[i]] !in closed && (forall j | i < j < |queue| :: queue[j] != queue[i])
    ensures Channels(queue, chans - {queue[i]}, closed + {chans[queue[i]]}, next, true)
  {
  }

  /** The loop's end so far: the first `i` requests of the queue are closed, the others still wait. */
  ghost predicate Stopping(queue: seq<Req>, chans0: map<Req, Channel>, chans: map<Req, Channel>, closed: set<Channel>, i: nat)
  {
    && i <= |queue|
    && (forall r | r in chans0 :: r in chans || chans0[r] in closed)
    && (forall r | r in chans :: r in chans0 && chans[r] == chans0[r])
    && (forall j | 0 <= j < i :: queue[j] !in chans)
    && (forall j | i <= j < |queue| :: queue[j] in chans)
  }

  lemma StoppingStarts(queue: seq<Req>, chans: map<Req, Channel>, closed: set<Channel>)
    requires forall j | 0 <= j < |queue| :: queue[j] in chans
    ensures Stopping(queue, chans, chans, closed, 0)
  {
  }

  lemma StoppingOn(queue: seq<Req>, order: map<Req, nat>, chans0: map<Req, Channel>, chans: map<Req, Channel>,
                   closed: set<Channel>, next: nat, i: nat)
    requires Sorted(queue, order) && Channels(queue, chans, closed, next, true) && i < |queue|
    requires Stopping(queue, chans0, chans, closed, i)
    ensures queue[i] in chans
    ensures Stopping(queue, chans0, chans - {queue[i]}, closed + {chans[queue[i]]}, i + 1)
  {
    StopCloses(queue, order, chans, closed, next, i);
    hide Sorted, Channels;
  }

  lemma StoppingEnds(queue: seq<Req>, chans0: map<Req, Channel>, chans: map<Req, Channel>, closed: set<Channel>)
    requires Stopping(queue, chans0, chans, closed, |queue|)
    ensures (forall j | 0 <= j < |queue| :: queue[j] !in chans) && forall r | r in chans0 :: r in chans || chans0[r] in closed
  {
  }

  /** Closing an open channel counts it once. */
  lemma ClosesOnce(closed: set<Channel>, c: Channel)
    requires c !in closed
    ensures multiset(closed + {c}) == multiset(closed) + multiset{c}
  {
  }

  lemma NoChannels(queue: seq<Req>, chans: map<Req, Channel>, closed: set<Channel>, next: nat)
    requires Channels(queue, chans, closed, next, true) && forall j | 0 <= j < |queue| :: queue[j] !in chans
    ensures chans == map[]
  {
  }

  datatype Step =
    | Enqueue(req: Req)
    | CancelOne(req: Req)
    | Register(peer: Peer)
    | Unregister(peer: Peer)
    | Turn(answers: Oracle)
    | Shutdown

  /** A request keeps its order; a new one gets the highest. */
  lemma GivesOrder(queue: seq<Req>, order: map<Req, nat>, last: nat, r: Req)
    requires Sorted(queue, order) && Ordered(order, last) && r !in queue
    ensures r in order ==> forall x | x in queue :: x in order && order[x] != order[r]
    ensures r !in order ==> var order', last' := order[r := last + 1], last + 1;
      Sorted(queue, order') && Ordered(order', last') && forall x | x in queue :: x in order' && order'[x] < order'[r]
  {
  }

  lemma OpensChannel(queue: seq<Req>, queue': seq<Req>, chans: map<Req, Channel>, closed: set<Channel>, next: nat,
                     stopped: bool, r: Req)
    requires Channels(queue, chans, closed, next, stopped) && r !in queue && forall x :: x in queue' <==> x in queue || x == r
    ensures Channels(queue', chans[r := next], closed, next + 1, stopped) && next !in closed
  {
  }

  lemma Inserted(queue: seq<Req>, r: Req, k: nat)
    requires k <= |queue|
    ensures forall x :: x in queue[..k] + [r] + queue[k..] <==> x in queue || x == r
    ensures k == |queue| ==> queue[..k] + [r] + queue[k..] == queue + [r]
  {
    assert queue == queue[..k] + queue[k..];
  }

  class RequestDistributor {
    var queue: seq<Req>
    var lastOrder: nat
    var order: map<Req, nat>
    var peers: set<Peer>
    // Channels: the one each request waits on, which are closed, what was sent on them, and a supply of new ones.
    var chans: map<Req, Channel>
    var closed: set<Channel>
    ghost var closings: multiset<Channel>
    var sent: map<Channel, Peer>
    var next: nat
    var stopped: bool

    ghost predicate Valid()
      reads this
    {
      && Sorted(queue, order)
      && Ordered(order, lastOrder)
      && Channels(queue, chans, closed, next, stopped)
      && sent.Keys <= closed && closings == multiset(closed)
    }

    constructor ()
      ensures Valid() && queue == []
    {
      queue, lastOrder, order, peers := [], 0, map[], {};
      chans, closed, sent, next, stopped := map[], {}, map[], 0, false;
      closings := multiset{};
    }

    method RegisterPeer(p: Peer)
      requires Valid()
      modifies this`peers
      ensures Valid() && peers == old(peers) + {p}
    {
      peers := peers + {p};
    }

    method UnregisterPeer(p: Peer)
      requires Valid()
      modifies this`peers
      ensures Valid() && peers == old(peers) - {p}
    {
      peers := peers - {p};
    }

    /** Queues a request that is not in the queue: at the end the first time, else where its order puts it. */
    method Queue(r: Req) returns (c: Channel)
      requires Valid() && r !in queue
      modifies this`queue, this`lastOrder, this`order, this`chans, this`next
      ensures Valid()
      ensures forall x :: x in queue <==> x in old(queue) || x == r
      ensures forall x | x in old(order) :: x in order && order[x] == old(order)[x]
      ensures r !in old(order) ==> order[r] == lastOrder > old(lastOrder) && queue == old(queue) + [r]
      ensures r in old(order) ==> order == old(order) && lastOrder == old(lastOrder)
      ensures chans == old(chans)[r := c] && c !in old(closed) && c >= old(next)
    {
      hide *;
      ValidIs();
      ghost var q0, order0 := queue, order;
      GivesOrder(queue, order, lastOrder, r);
      if r !in order {
        lastOrder := lastOrder + 1;
        order := order[r := lastOrder];
      }
      var k := Place(queue, order, r);
      queue := queue[..k] + [r] + queue[k..];
      Inserted(q0, r, k);
      OpensChannel(q0, queue, chans, closed, next, stopped, r);
      c := next;
      next := next + 1;
      chans := chans[r := c];
      ValidIs();
    }

    lemma ValidIs()
      ensures Valid() <==>
        Sorted(queue, order) && Ordered(order, lastOrder) && Channels(queue, chans, closed, next, stopped) && sent.Keys <= closed
        && closings == multiset(closed)
    {
    }

    /** Closes a request's channel and removes it from the queue. */
    method CloseAndRemove(r: Req, k: nat)
      requires Valid() && r in chans && k < |queue| && queue[k] == r
      modifies this`queue, this`chans, this`closed, this`closings
      ensures Valid() && closed == old(closed) + {old(chans[r])} && chans == old(chans) - {r}
      ensures queue == old(queue[..k] + queue[k + 1..])
    {
      hide Sorted;
      assert chans[r] !in closed;
      RemoveSorted(queue, order, k);
      ClosesOnce(closed, chans[r]);
      closed, closings := closed + {chans[r]}, closings + multiset{chans[r]};
      chans := chans - {r};
      queue := queue[..k] + queue[k + 1..];
    }

    method IndexOf(r: Req) returns (k: nat)
      requires r in queue
      ensures k < |queue| && queue[k] == r
    {
      k := 0;
      while queue[k] != r
        invariant k < |queue| && r in queue[k..]
        decreases |queue| - k
      {
        assert queue[k..] == [queue[k]] + queue[k + 1..];
        k := k + 1;
      }
    }

    /** Cancels a request that is still waiting. */
    method Cancel(r: Req) returns (ok: bool)
      requires Valid()
      modifies this`queue, this`chans, this`closed, this`closings
      ensures Valid() && ok == (r in old(chans)) && r !in chans
      ensures ok ==> r !in queue && closed == old(closed) + {old(chans)[r]}
      ensures !ok ==> closed == old(closed)
      ensures forall x :: x in queue <==> x in old(queue) && (ok ==> x != r)
    {
      if r !in chans {
        return false;
      }
      var k := IndexOf(r);
      RemoveSorted(queue, order, k);
      CloseAndRemove(r, k);
      ok := true;
    }

    /** Finds the next request to send. Requests at the front that no registered peer can take are closed; the request found
        is the earliest one its peer can serve. */
    method NextRequest(o: Oracle) returns (found: Option<Candidate>, ghost dropped: nat)
      requires Valid() && !stopped
      modifies this`queue, this`chans, this`closed, this`closings
      ensures Valid()
      ensures dropped <= |old(queue)| && queue == old(queue)[dropped..]
      ensures forall j | 0 <= j < dropped :: Hopeless(peers, o, old(queue)[j])
      ensures queue != [] ==> !Hopeless(peers, o, queue[0])
      ensures (forall j | 0 <= j < dropped :: old(queue)[j] in old(chans)) && closed == old(closed) + ChansOf(old(queue)[..dropped], old(chans))
      ensures forall r | r in queue :: r in chans && r in old(chans) && chans[r] == old(chans)[r]
      ensures found == None <==> queue == []
      ensures found.Some? ==>
        && found.value.peer in peers && EarliestFor(queue, o, found.value.peer, found.value.req)
        && o(found.value.req, found.value.peer) == After(found.value.wait)
        && (forall p, r | p in peers && EarliestFor(queue, o, p, r) && found.value.wait > 0 :: found.value.wait <= o(r, p).wait)
    {
      hide *;
      ValidIs();
      ghost var queue0, chans0 := queue, chans;
      dropped, found := 0, None;
      var i: nat, checked, ready, best := 0, {}, map[], None;
      ghost var first := map[];
      ScanStarts(queue, o, peers);
      SearchStarts(queue, chans, closed, next, peers, o);
      while (peers != {} || i == 0) && i < |queue|
        invariant Valid() && i <= |queue| && checked == first.Keys && Scanned(queue, o, peers, i, first, ready, best)
        invariant dropped <= |queue0| && queue == queue0[dropped..]
        invariant Searching(queue0, chans0, old(closed), peers, o, dropped, queue, chans, closed)
        decreases |queue| - i
      {
        ScannedIs(queue, o, peers, i, first, ready, best);
        var canSend;
        ghost var first0, checked0 := first, checked;
        canSend, first, checked, ready, best := AskPeers(queue, o, peers, i, first, checked, ready, best);
        if i == 0 {
          FrontHopeless(queue, o, peers, canSend);
        }
        if !canSend && i == 0 {
          ValidIs();
          FrontOnce(queue, order);
          SearchDrops(queue0, chans0, old(closed), peers, o, dropped, queue, chans, closed);
          CloseAndRemove(queue[0], 0);
          dropped := dropped + 1;
          ScanStarts(queue, o, peers);
        } else {
          ScanContinues(queue, o, peers, i, first, ready, best);
          i := i + 1;
        }
      }
      ScannedIs(queue, o, peers, i, first, ready, best);
      ScanEnds(queue, o, peers, i, first, ready, best);
      SearchIs(queue0, chans0, old(closed), peers, o, dropped, queue, chans, closed);
      if ready != map[] {
        var p :| p in ready;
        found := Some(Candidate(p, ready[p], 0));
        EarliestQueued(queue, o, p, ready[p]);
      } else {
        found := best;
        if best.Some? {
          WaitsIs(queue, o, peers, best);
          EarliestQueued(queue, o, best.value.peer, best.value.req);
        }
      }
    }

    /** One turn of the sending loop: the next request, if it need not wait, is handed to its peer; the peer is sent on the
        request's channel, which is then closed. */
    method Dispatch(o: Oracle) returns (found: Option<Candidate>, ghost dropped: nat, ghost q: seq<Req>)
      requires Valid() && !stopped
      modifies this`queue, this`chans, this`closed, this`closings, this`sent
      ensures Valid() && dropped <= |old(queue)| && q == old(queue)[dropped..]
      ensures forall j | 0 <= j < dropped :: Hopeless(peers, o, old(queue)[j])
      ensures found == None <==> q == []
      ensures found.Some? ==>
        && found.value.peer in peers && EarliestFor(q, o, found.value.peer, found.value.req)
        && found.value.req in old(chans) && old(chans)[found.value.req] !in old(closed)
      ensures old(closed) <= closed && forall c | c in old(sent) :: c in sent && sent[c] == old(sent)[c]
      ensures forall x | x in queue :: x in chans && x in old(chans) && chans[x] == old(chans)[x]
      ensures if found.Some? && found.value.wait == 0 then
          && o(found.value.req, found.value.peer) == After(0)
          && (forall x :: x in queue <==> x in q && x != found.value.req)
          && sent == old(sent)[old(chans)[found.value.req] := found.value.peer] && old(chans)[found.value.req] in closed
        else queue == q && sent == old(sent)
    {
      hide *;
      ValidIs();
      ghost var queue0, chans0 := queue, chans;
      found, dropped := NextRequest(o);
      q := queue;
      ValidIs();
      if found.Some? {
        EarliestQueued(queue, o, found.value.peer, found.value.req);
        QueuedOpen(queue, chans, closed, next, found.value.req);
        QueuedOpen(queue0, chans0, old(closed), next, found.value.req);
        assert chans[found.value.req] == chans0[found.value.req];
        if found.value.wait == 0 {
          var r, peer := found.value.req, found.value.peer;
          var k := IndexOf(r);
          var chn := chans[r];
          RemoveSorted(queue, order, k);
          CloseAndRemove(r, k);
          ValidIs();
          sent := sent[chn := peer];
          ValidIs();
        }
      }
    }

    /** The loop ends: every waiting request's channel is closed. */
    method Stop()
      requires Valid() && !stopped
      modifies this`chans, this`closed, this`closings, this`stopped
      ensures Valid() && stopped && chans == map[] && old(closed) <= closed
      ensures forall r | r in old(chans) :: old(chans)[r] in closed
    {
      hide *;
      ValidIs();
      stopped := true;
      StopsLoosely(queue, chans, closed, next);
      ghost var chans0 := chans;
      StoppingStarts(queue, chans, closed);
      for i := 0 to |queue|
        invariant stopped && Channels(queue, chans, closed, next, true) && old(closed) <= closed && sent.Keys <= closed
        invariant closings == multiset(closed)
        invariant Stopping(queue, chans0, chans, closed, i)
      {
        StoppingOn(queue, order, chans0, chans, closed, next, i);
        StopCloses(queue, order, chans, closed, next, i);
        ClosesOnce(closed, chans[queue[i]]);
        closed, closings := closed + {chans[queue[i]]}, closings + multiset{chans[queue[i]]};
        chans := chans - {queue[i]};
      }
      StoppingEnds(queue, chans0, chans, closed);
      NoChannels(queue, chans, closed, next);
      ValidIs();
    }

    /** Over every run the queue stays sorted, every waiting request has a channel of its own that is open, and no channel
        is closed twice or used after it was closed. */
    method Run(steps: seq<Step>)
      requires Valid()
      modifies this
      ensures Valid() && old(closed) <= closed && forall c :: closings[c] == if c in closed then 1 else 0
      ensures forall c | c in old(sent) :: c in sent && sent[c] == old(sent)[c]
    {
      hide *;
      for i := 0 to |steps|
        invariant Valid() && old(closed) <= closed
        invariant forall c | c in old(sent) :: c in sent && sent[c] == old(sent)[c]
      {
        match steps[i]
        case Enqueue(r) => if r !in queue { var c := Queue(r); }
        case CancelOne(r) => var ok := Cancel(r);
        case Register(p) => RegisterPeer(p);
        case Unregister(p) => UnregisterPeer(p);
        case Turn(o) => if !stopped { var found, _, _ := Dispatch(o); }
        case Shutdown => if !stopped { Stop(); }
      }
      ValidIs();
    }
  }
}
