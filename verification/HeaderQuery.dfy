/** Answering a block header query (berith/handler.go, GetBlockHeadersMsg). The mode is fixed by the query,
    so the answering loop is written once for each mode. Arithmetic on numbers wraps at 64 bits. */
module HeaderQueries {
  import opened Basics
  import opened HeaderTree
  import opened HeaderChains

  const MAX_HEADER_FETCH: nat := 192
  const SOFT_RESPONSE_LIMIT: nat := 2 * 1024 * 1024
  const EST_HEADER_RLP_SIZE: nat := 500
  const MAX_NON_CANONICAL: nat := 100

  datatype Query = Query(hash: Hash, number: Uint64, amount: Uint64, skip: Uint64, reverse: bool)

  function Add64(a: Uint64, b: Uint64): Uint64 {
    if a + b <= MAX_UINT64 then a + b else a + b - MAX_UINT64 - 1
  }

  /** The requested amount as a signed 64-bit length. */
  function AsInt(amount: Uint64): int {
    if amount < 0x8000_0000_0000_0000 then amount else amount - MAX_UINT64 - 1
  }

  /** How many headers the loop may collect at most. */
  ghost function Limit(amount: Uint64): nat {
    if AsInt(amount) < 0 then 0 else Min(AsInt(amount), MAX_HEADER_FETCH)
  }

  /** `y` is the `k`-th ancestor of `x`. */
  ghost predicate Apart(hs: Headers, genesis: Hash, x: Header, y: Header, k: nat)
    requires Rooted(hs, genesis)
  {
    && x.hash in hs && hs[x.hash] == x && y.hash in hs && hs[y.hash] == y
    && y.number + k == x.number
    && y.number as nat in PathTo(hs, genesis, x.hash) && PathTo(hs, genesis, x.hash)[y.number as nat] == y.hash
  }

  /** Neighbours of a reply are skip + 1 generations apart, towards the genesis block or away from it. */
  ghost predicate Spaced(hs: Headers, genesis: Hash, q: Query, x: Header, y: Header)
    requires Rooted(hs, genesis)
  {
    if q.reverse then Apart(hs, genesis, x, y, q.skip + 1) else Apart(hs, genesis, y, x, q.skip + 1)
  }

  ghost predicate AllSpaced(hs: Headers, genesis: Hash, q: Query, reply: seq<Header>)
    requires Rooted(hs, genesis)
  {
    forall i | 0 <= i && i + 1 < |reply| :: Spaced(hs, genesis, q, reply[i], reply[i + 1])
  }

  /** The header a hash query would go on to from `x` exists. */
  ghost predicate HasNext(hs: Headers, canon: Numbering, q: Query, x: Header) {
    if q.reverse then x.number >= q.skip + 1 else x.hash in canon.Values && x.number + q.skip + 1 in canon
  }

  // ---------------------------------------------------------------- the cursor of a hash query

  /** What is left of the budget covers the rest of the walk to the canonical chain as well as it did at first. */
  ghost predicate Affords(chain: HeaderChain, q: Query, hash: Hash, left: nat)
    requires chain.Valid()
    reads chain
  {
    && hash in chain.headers && q.hash in chain.headers && left <= MAX_NON_CANONICAL
    && chain.Off(hash) + MAX_NON_CANONICAL <= chain.Off(q.hash) + left
  }

  /** The header to look up next, after the reply so far. */
  ghost predicate Cursor(chain: HeaderChain, q: Query, reply: seq<Header>, hash: Hash, number: nat, left: nat)
    requires chain.Valid()
    reads chain
  {
    && hash != NO_HASH
    && (hash in chain.headers ==> number == chain.headers[hash].number && Affords(chain, q, hash, left))
    && (reply == [] ==> hash == q.hash)
    && (reply != [] ==> hash in chain.headers)
    && (reply != [] ==> Spaced(chain.headers, chain.genesis, q, reply[|reply| - 1], chain.headers[hash]))
  }

  /** There is no next header, or the budget was too small for it. */
  ghost predicate Stopped(chain: HeaderChain, q: Query, x: Header)
    requires chain.Valid()
    reads chain
  {
    HasNext(chain.headers, chain.canon, q, x) ==>
      q.reverse && q.skip > 0 && q.hash in chain.headers && chain.Off(q.hash) > MAX_NON_CANONICAL
  }

  lemma CursorStart(chain: HeaderChain, q: Query, number: nat)
    requires chain.Valid() && q.hash != NO_HASH && (q.hash in chain.headers ==> number == chain.headers[q.hash].number)
    ensures Cursor(chain, q, [], q.hash, number, MAX_NON_CANONICAL) && AllSpaced(chain.headers, chain.genesis, q, [])
  {
  }

  lemma CursorFinds(chain: HeaderChain, q: Query, reply: seq<Header>, hash: Hash, number: nat, left: nat)
    requires chain.Valid() && Cursor(chain, q, reply, hash, number, left)
    requires AllSpaced(chain.headers, chain.genesis, q, reply)
    ensures if hash in chain.headers then GetHeader(chain.headers, hash, number) == Some(chain.headers[hash])
            else reply == [] && hash == q.hash && GetHeader(chain.headers, hash, number) == None
    ensures hash in chain.headers ==>
      && chain.headers[hash].hash == hash != NO_HASH && chain.headers[hash].number == number && Affords(chain, q, hash, left)
      && AllSpaced(chain.headers, chain.genesis, q, reply + [chain.headers[hash]])
    ensures reply == [] ==> hash == q.hash
  {
    hide Rooted, Spaced, Affords;
    assert chain.Valid();
    if hash in chain.headers {
      KeyedAt(chain.headers, chain.genesis, hash);
    }
  }

  lemma KeyedAt(hs: Headers, genesis: Hash, h: Hash)
    requires Rooted(hs, genesis) && h in hs
    ensures h != NO_HASH && hs[h].hash == h && hs[h].number < MAX_UINT64
  {
  }

  /** The ancestor a walk reaches is as much nearer to the canonical chain as was walked. */
  lemma NearerAfter(chain: HeaderChain, q: Query, hash: Hash, number: nat, k: nat, r: Hash, left: nat, left': nat)
    requires chain.Valid() && Affords(chain, q, hash, left) && chain.headers[hash].number == number && k <= number
    requires r == PathTo(chain.headers, chain.genesis, hash)[number - k]
    requires left' == left || left == left' + Min(k, chain.Off(hash))
    ensures r in chain.headers && chain.headers[r].number == number - k && Affords(chain, q, r, left')
    ensures Apart(chain.headers, chain.genesis, chain.headers[hash], chain.headers[r], k)
  {
    hide *;
    chain.HeadersKeyed();
    AffordsIs(chain, q, hash, left);
    AncestorIs(chain.headers, chain.genesis, hash, k, r);
    OffAncestor(chain, hash, k, r);
    MinIs(k, chain.Off(hash));
    AffordsIs(chain, q, r, left');
  }

  lemma AffordsIs(chain: HeaderChain, q: Query, hash: Hash, left: nat)
    requires chain.Valid()
    ensures Affords(chain, q, hash, left) ==> hash in chain.headers && q.hash in chain.headers
    ensures hash in chain.headers && q.hash in chain.headers ==>
      (Affords(chain, q, hash, left) <==>
       left <= MAX_NON_CANONICAL && chain.Off(hash) + MAX_NON_CANONICAL <= chain.Off(q.hash) + left)
  {
  }

  lemma AncestorIs(hs: Headers, genesis: Hash, hash: Hash, k: nat, r: Hash)
    requires Rooted(hs, genesis) && hash in hs && k <= hs[hash].number
    requires r == PathTo(hs, genesis, hash)[hs[hash].number - k]
    ensures r in hs && hs[r].number == hs[hash].number - k && r != NO_HASH
    ensures Apart(hs, genesis, hs[hash], hs[r], k)
  {
    hide Rooted;
    assert IsPathTo(hs, PathTo(hs, genesis, hash), hash);
    KeyedAt(hs, genesis, hash);
    KeyedAt(hs, genesis, r);
  }

  lemma OffAncestor(chain: HeaderChain, hash: Hash, k: nat, r: Hash)
    requires chain.Valid() && hash in chain.headers && k <= chain.headers[hash].number && r in chain.headers
    requires r == PathTo(chain.headers, chain.genesis, hash)[chain.headers[hash].number - k]
    requires chain.headers[r].number == chain.headers[hash].number - k
    ensures chain.Off(hash) == Min(k, chain.Off(hash)) + chain.Off(r)
  {
    hide *;
    chain.HeadersKeyed();
    var hs, g, n: nat := chain.headers, chain.genesis, chain.headers[hash].number;
    var p := PathTo(hs, g, hash);
    PathNumbers(hs, p, hash);
    OffIs(chain, hash);
    OffIs(chain, r);
    SamePathBelow(hs, g, chain.canon, p, hash, n - k);
    CanonicalBelow(hs, chain.canon, p, chain.head, n);
    DetachedBelow(hs, g, chain.canon, p, n, k);
  }

  lemma OffIs(chain: HeaderChain, hash: Hash)
    requires chain.Valid() && hash in chain.headers
    ensures 0 in chain.canon && chain.canon[0] == chain.genesis
    ensures var p := PathTo(chain.headers, chain.genesis, hash);
      && Descends(chain.headers, p, chain.headers[hash].number)
      && chain.Off(hash) == Detached(chain.headers, chain.genesis, chain.canon, p, chain.headers[hash].number)
  {
    StartsAtGenesis(chain.headers, chain.genesis, chain.canon, chain.headers[chain.head].number);
  }

  lemma CanonicalBelow(hs: Headers, canon: Numbering, p: Numbering, head: Hash, n: nat)
    requires IsPathTo(hs, canon, head) && Descends(hs, p, n)
    ensures forall m: nat | 0 < m <= n && m in canon && canon[m] == p[m] :: m - 1 in canon && canon[m - 1] == p[m - 1]
  {
  }

  /** Going down a path passes the detached headers first. */
  lemma {:induction false} DetachedBelow(hs: Headers, genesis: Hash, canon: Numbering, p: Numbering, n: nat, k: nat)
    requires Rooted(hs, genesis) && Descends(hs, p, n) && 0 in canon && canon[0] == genesis && k <= n
    requires forall m: nat | 0 < m <= n && m in canon && canon[m] == p[m] :: m - 1 in canon && canon[m - 1] == p[m - 1]
    ensures Detached(hs, genesis, canon, p, n) == Min(k, Detached(hs, genesis, canon, p, n)) + Detached(hs, genesis, canon, p, n - k)
    decreases k
  {
    if k > 0 {
      DetachedBelow(hs, genesis, canon, p, n, k - 1);
    }
  }

  /** The path to an ancestor is the lower part of the path, so the same headers are detached. */
  lemma SamePathBelow(hs: Headers, genesis: Hash, canon: Numbering, p: Numbering, hash: Hash, n: nat)
    requires Rooted(hs, genesis) && IsPathTo(hs, p, hash) && n <= hs[hash].number && 0 in canon && canon[0] == genesis
    ensures p[n] in hs && Descends(hs, PathTo(hs, genesis, p[n]), n)
    ensures Detached(hs, genesis, canon, PathTo(hs, genesis, p[n]), n) == Detached(hs, genesis, canon, p, n)
  {
    hide *;
    LowerPath(hs, p, hash, n);
    var r := PathTo(hs, genesis, p[n]);
    PathNumbers(hs, r, p[n]);
    forall m: nat | m <= n ensures r[m] == p[m] {
      AgreeBelow(hs, r, p, n, m);
    }
    SameDetached(hs, genesis, canon, r, p, n);
  }

  lemma LowerPath(hs: Headers, p: Numbering, h: Hash, n: nat)
    requires IsPathTo(hs, p, h) && n <= hs[h].number
    ensures Descends(hs, p, n) && p[n] in hs && hs[p[n]].number == n && forall m: nat | m <= n :: m in p
  {
  }

  lemma {:induction false} SameDetached(hs: Headers, genesis: Hash, canon: Numbering, p: Numbering, r: Numbering,
      n: nat)
    requires Rooted(hs, genesis) && Descends(hs, p, n) && Descends(hs, r, n) && 0 in canon && canon[0] == genesis
    requires forall m: nat | m <= n :: p[m] == r[m]
    ensures Detached(hs, genesis, canon, p, n) == Detached(hs, genesis, canon, r, n)
    decreases n
  {
    hide Rooted;
    StartsAtGenesis(hs, genesis, p, n);
    if n > 0 {
      SameDetached(hs, genesis, canon, p, r, n - 1);
    }
  }

  // ---------------------------------------------------------------- hash queries

  /** One step towards the genesis block. */
  method StepBack(chain: HeaderChain, q: Query, x: Header, left: nat)
    returns (hash: Hash, number: Uint64, left': nat, unknown: bool)
    requires chain.Valid() && q.reverse && x.hash in chain.headers && chain.headers[x.hash] == x && x.hash != NO_HASH
    requires Affords(chain, q, x.hash, left)
    ensures !unknown ==> Cursor(chain, q, [x], hash, number, left')
    ensures unknown ==> Stopped(chain, q, x)
  {
    hide *;
    chain.HeadersKeyed();
    HasNextBack(chain, q, x);
    var ancestor := Add64(q.skip, 1);
    Add64Is(q.skip, 1);
    if ancestor == 0 {
      return x.hash, x.number, left, true;
    }
    GetHeaderIs(chain.headers, x);
    hash, number, left' := chain.GetAncestor(x.hash, x.number, ancestor, left);
    unknown := hash == NO_HASH;
    if ancestor <= x.number {
      AffordsIs(chain, q, x.hash, left);
      MinIs(ancestor, chain.Off(x.hash));
      PathNumbers(chain.headers, PathTo(chain.headers, chain.genesis, x.hash), x.hash);
      ghost var r := PathTo(chain.headers, chain.genesis, x.hash)[x.number - ancestor];
      AncestorIs(chain.headers, chain.genesis, x.hash, ancestor, r);
      if hash == r {
        NearerAfter(chain, q, x.hash, x.number, ancestor, r, left, left');
        CursorAt(chain, q, x, hash, number, left');
      }
    }
  }

  /** One step away from it: the canonical header of the next number, if this one is its ancestor. */
  method StepForward(chain: HeaderChain, q: Query, x: Header, left: nat)
    returns (hash: Hash, number: Uint64, left': nat, unknown: bool)
    requires chain.Valid() && !q.reverse && x.hash in chain.headers && chain.headers[x.hash] == x && x.hash != NO_HASH
    requires Affords(chain, q, x.hash, left)
    ensures !unknown ==> Cursor(chain, q, [x], hash, number, left')
    ensures unknown ==> Stopped(chain, q, x)
  {
    hide *;
    chain.HeadersKeyed();
    CanonSmall(chain);
    Add64Is(x.number, q.skip);
    var next := Add64(Add64(x.number, q.skip), 1);
    Add64Is(Add64(x.number, q.skip), 1);
    hash, number, left', unknown := x.hash, x.number, left, true;
    HasNextForward(chain, q, x);
    if next <= x.number {
      return;
    }
    var nextHash := ReadCanonicalHash(chain.canon, next);
    NumberedIs(chain, next);
    if nextHash == NO_HASH {
      return;
    }
    var expected, _, left'' := chain.GetAncestor(nextHash, next, Add64(q.skip, 1), left);
    Add64Is(q.skip, 1);
    MinIs(Add64(q.skip, 1), 0);
    if expected == x.hash {
      AncestorIs(chain.headers, chain.genesis, nextHash, q.skip + 1, x.hash);
      CanonicalAffords(chain, q, x.hash, nextHash, left);
      hash, number, left', unknown := nextHash, next, left'', false;
      CursorAt(chain, q, x, hash, number, left');
    } else {
      CanonicalAncestor(chain, next, x.number, nextHash);
    }
  }

  lemma Add64Is(a: Uint64, b: Uint64)
    ensures Add64(a, b) == if a + b < 0x1_0000_0000_0000_0000 then a + b else a + b - 0x1_0000_0000_0000_0000
  {
  }

  lemma GetHeaderIs(hs: Headers, x: Header)
    requires x.hash in hs && hs[x.hash] == x
    ensures GetHeader(hs, x.hash, x.number) == Some(x)
  {
  }

  lemma HasNextBack(chain: HeaderChain, q: Query, x: Header)
    requires chain.Valid() && q.reverse
    ensures x.number < q.skip + 1 ==> Stopped(chain, q, x)
    ensures q.skip > 0 && q.hash in chain.headers && chain.Off(q.hash) > MAX_NON_CANONICAL ==> Stopped(chain, q, x)
  {
  }

  lemma HasNextForward(chain: HeaderChain, q: Query, x: Header)
    requires chain.Valid() && !q.reverse
    ensures Stopped(chain, q, x) <==> !(x.hash in chain.canon.Values && x.number + q.skip + 1 in chain.canon)
  {
  }

  lemma CursorAt(chain: HeaderChain, q: Query, x: Header, hash: Hash, number: nat, left: nat)
    requires chain.Valid() && hash != NO_HASH && hash in chain.headers && number == chain.headers[hash].number
    requires Affords(chain, q, hash, left)
    requires if q.reverse then Apart(chain.headers, chain.genesis, x, chain.headers[hash], q.skip + 1)
             else Apart(chain.headers, chain.genesis, chain.headers[hash], x, q.skip + 1)
    ensures Cursor(chain, q, [x], hash, number, left)
  {
  }

  lemma CanonSmall(chain: HeaderChain)
    requires chain.Valid()
    ensures forall m | m in chain.canon :: m < 0xFFFF_FFFF_FFFF_FFFF
  {
  }

  /** A canonical number leads to a stored header that is not detached. */
  lemma NumberedIs(chain: HeaderChain, n: nat)
    requires chain.Valid()
    ensures ReadCanonicalHash(chain.canon, n) != NO_HASH <==> n in chain.canon
    ensures n in chain.canon ==>
      var h := chain.canon[n];
      && ReadCanonicalHash(chain.canon, n) == h && h in chain.headers && chain.headers[h].number == n && chain.Off(h) == 0
      && GetHeader(chain.headers, h, n) == Some(chain.headers[h])
  {
    if n in chain.canon {
      var h := chain.canon[n];
      assert h in chain.headers && chain.headers[h].number == n;
      KeyedAt(chain.headers, chain.genesis, h);
      OffIs(chain, h);
      PathNumbers(chain.headers, PathTo(chain.headers, chain.genesis, h), h);
    }
  }

  lemma CanonicalAffords(chain: HeaderChain, q: Query, h: Hash, h': Hash, left: nat)
    requires chain.Valid() && Affords(chain, q, h, left) && h' in chain.headers && chain.Off(h') == 0
    ensures Affords(chain, q, h', left)
  {
  }

  /** The path to a canonical header is canonical. */
  lemma CanonicalAncestor(chain: HeaderChain, n: nat, m: nat, h: Hash)
    requires chain.Valid() && n in chain.canon && chain.canon[n] == h && m <= n
    ensures h in chain.headers && m in PathTo(chain.headers, chain.genesis, h) && m in chain.canon
    ensures PathTo(chain.headers, chain.genesis, h)[m] == chain.canon[m]
    ensures forall x: Hash | x in chain.canon.Values && x in chain.headers && chain.headers[x].number == m :: chain.canon[m] == x
  {
    var p := PathTo(chain.headers, chain.genesis, h);
    PathNumbers(chain.headers, p, h);
    AgreeBelow(chain.headers, chain.canon, p, n, m);
  }

  method AnswerByHash(chain: HeaderChain, q: Query) returns (reply: seq<Header>)
    requires chain.Valid() && q.hash != NO_HASH
    ensures |reply| <= q.amount && |reply| <= 192
    ensures reply != [] <==> q.hash in chain.headers && 0 < q.amount < 0x8000_0000_0000_0000
    ensures reply != [] ==> reply[0] == chain.headers[q.hash]
    ensures AllSpaced(chain.headers, chain.genesis, q, reply)
    // A short reply ends where the chain does, unless too many headers of a sparse backward walk are off
    // the canonical chain.
    ensures 0 < |reply| < q.amount && |reply| < 192 && HasNext(chain.headers, chain.canon, q, reply[|reply| - 1]) ==>
      q.reverse && q.skip > 0 && chain.Off(q.hash) > 100
  {
    hide *;
    chain.HeadersKeyed();
    LimitIs(q.amount, 0);
    LimitMeans(q.amount);
    reply := [];
    var bytes, unknown, left := 0, false, MAX_NON_CANONICAL;
    var hash: Hash, number: Uint64 := q.hash, q.number;
    if q.hash in chain.headers {
      number := chain.headers[q.hash].number;
    }
    CursorStart(chain, q, number);
    while !unknown && |reply| < AsInt(q.amount) && bytes < SOFT_RESPONSE_LIMIT && |reply| < MAX_HEADER_FETCH
      invariant bytes == EST_HEADER_RLP_SIZE * |reply| && |reply| <= Limit(q.amount)
      invariant AllSpaced(chain.headers, chain.genesis, q, reply)
      invariant reply != [] ==> q.hash in chain.headers && reply[0] == chain.headers[q.hash]
      invariant !unknown ==> Cursor(chain, q, reply, hash, number, left)
      invariant unknown ==> reply != [] && Stopped(chain, q, reply[|reply| - 1])
      decreases Limit(q.amount) - |reply|
    {
      LimitIs(q.amount, |reply|);
      CursorFinds(chain, q, reply, hash, number, left);
      var origin := GetHeader(chain.headers, hash, number);
      if origin == None {
        return;
      }
      reply := reply + [origin.value];
      bytes := bytes + EST_HEADER_RLP_SIZE;
      if q.reverse {
        hash, number, left, unknown := StepBack(chain, q, origin.value, left);
      } else {
        hash, number, left, unknown := StepForward(chain, q, origin.value, left);
      }
      if !unknown {
        CursorSame(chain, q, reply, origin.value, hash, number, left);
      }
    }
    LimitIs(q.amount, |reply|);
    if unknown {
      StoppedMeans(chain, q, reply[|reply| - 1]);
    }
  }

  /** The limit in plain numbers: an amount that is negative as a signed number asks for nothing. */
  lemma LimitMeans(amount: Uint64)
    ensures Limit(amount) == if amount >= 0x8000_0000_0000_0000 then 0 else if amount < 192 then amount else 192
    ensures MAX_NON_CANONICAL == 100
  {
  }

  lemma LimitIs(amount: Uint64, n: nat)
    ensures n < Limit(amount) <==> n < AsInt(amount) && n < MAX_HEADER_FETCH
    ensures n < MAX_HEADER_FETCH ==> EST_HEADER_RLP_SIZE * n < SOFT_RESPONSE_LIMIT
    ensures EST_HEADER_RLP_SIZE * n + EST_HEADER_RLP_SIZE == EST_HEADER_RLP_SIZE * (n + 1)
  {
  }

  lemma CursorSame(chain: HeaderChain, q: Query, reply: seq<Header>, x: Header, hash: Hash, number: nat, left: nat)
    requires chain.Valid() && Cursor(chain, q, [x], hash, number, left) && reply != [] && reply[|reply| - 1] == x
    ensures Cursor(chain, q, reply, hash, number, left)
  {
  }

  lemma StoppedMeans(chain: HeaderChain, q: Query, x: Header)
    requires chain.Valid() && Stopped(chain, q, x)
    ensures HasNext(chain.headers, chain.canon, q, x) ==>
      q.reverse && q.skip > 0 && q.hash in chain.headers && chain.Off(q.hash) > MAX_NON_CANONICAL
  {
  }

  // ---------------------------------------------------------------- number queries

  /** The number a number query goes on to; skip + 1 and the sum wrap. */
  function NextNumber(q: Query, n: Uint64): Option<Uint64> {
    var k := Add64(q.skip, 1);
    if !q.reverse then Some(Add64(n, k)) else if n >= k then Some(n - k) else None
  }

  /** The step from number `n` overflows. */
  ghost predicate Wraps(q: Query, n: Uint64) {
    if q.reverse then q.skip == MAX_UINT64 else n + q.skip + 1 > MAX_UINT64
  }

  ghost predicate CanonicalHeader(hs: Headers, canon: Numbering, x: Header) {
    x.number as nat in canon && canon[x.number as nat] == x.hash && x.hash in hs && hs[x.hash] == x
  }

  /** A number query does not see forks, and its neighbours are skip + 1 generations apart except exactly where
      the step overflows: the largest skip repeats one header, a forward step past 64 bits goes backwards. */
  lemma SpacedUnlessWraps(chain: HeaderChain, q: Query, x: Header, y: Header)
    requires chain.Valid() && CanonicalHeader(chain.headers, chain.canon, x)
    requires CanonicalHeader(chain.headers, chain.canon, y)
    requires NextNumber(q, x.number) == Some(y.number)
    ensures Spaced(chain.headers, chain.genesis, q, x, y) <==> !Wraps(q, x.number)
  {
    hide Rooted, PathTo, Summed, Heaviest, LeadsTo;
    if x.number <= y.number {
      CanonicalAncestor(chain, y.number, x.number, y.hash);
    } else {
      CanonicalAncestor(chain, x.number, y.number, x.hash);
    }
  }

  lemma FirstNumbered(chain: HeaderChain, x: Header)
    requires CanonicalHeader(chain.headers, chain.canon, x)
    ensures x.number as nat in chain.canon
  {
  }

  /** If the step from a canonical header does not overflow, there is no next header only below the genesis block or above the
      head. */
  lemma NextMeans(chain: HeaderChain, q: Query, x: Header)
    requires chain.Valid() && CanonicalHeader(chain.headers, chain.canon, x)
    ensures var next := NextNumber(q, x.number);
      !Wraps(q, x.number) && (next == None || next.value as nat !in chain.canon) ==>
        if q.reverse then x.number < q.skip + 1 else (x.number + q.skip + 1) as nat !in chain.canon
  {
    hide Rooted, PathTo, Summed, Heaviest;
    if q.reverse && x.number >= q.skip + 1 {
      CanonDown(chain, x.number, x.number - (q.skip + 1));
    }
  }

  lemma CanonDown(chain: HeaderChain, n: nat, m: nat)
    requires chain.Valid() && n in chain.canon && m <= n
    ensures m in chain.canon
  {
    hide Rooted, Summed, Heaviest;
    assert LeadsTo(chain.headers, chain.canon, chain.head);
  }

  /** The largest skip does not leave the number. */
  lemma LargestSkipStays(q: Query, n: Uint64)
    requires q.skip == MAX_UINT64
    ensures NextNumber(q, n) == Some(n) && Wraps(q, n)
  {
  }

  /** With the largest skip a reply holds one header over and over. */
  lemma {:induction false} RepeatsOne(chain: HeaderChain, q: Query, reply: seq<Header>, k: nat)
    requires chain.Valid() && q.skip == MAX_UINT64 && k < |reply|
    requires forall i | 0 <= i < |reply| :: CanonicalHeader(chain.headers, chain.canon, reply[i])
    requires forall i | 0 <= i && i + 1 < |reply| :: NextNumber(q, reply[i].number) == Some(reply[i + 1].number)
    ensures forall i | 0 <= i <= k :: reply[i] == reply[0]
    decreases k
  {
    if k > 0 {
      RepeatsOne(chain, q, reply, k - 1);
      LargestSkipStays(q, reply[k - 1].number);
      assert CanonicalHeader(chain.headers, chain.canon, reply[k - 1]) && CanonicalHeader(chain.headers, chain.canon, reply[k]);
      assert NextNumber(q, reply[k - 1].number) == Some(reply[k - 1 + 1].number);
    }
  }

  method AnswerByNumber(chain: HeaderChain, q: Query) returns (reply: seq<Header>)
    requires chain.Valid()
    ensures |reply| <= q.amount && |reply| <= 192
    ensures reply != [] ==> reply[0].number == q.number
    ensures forall i | 0 <= i < |reply| :: CanonicalHeader(chain.headers, chain.canon, reply[i])
    ensures forall i | 0 <= i && i + 1 < |reply| :: NextNumber(q, reply[i].number) == Some(reply[i + 1].number)
    ensures forall i | 0 <= i && i + 1 < |reply| ::
      Spaced(chain.headers, chain.genesis, q, reply[i], reply[i + 1]) <==> !Wraps(q, reply[i].number)
    ensures reply != [] <==> q.number as nat in chain.canon && 0 < q.amount < 0x8000_0000_0000_0000
    ensures 0 < |reply| < q.amount && |reply| < 192 ==>
      var next := NextNumber(q, reply[|reply| - 1].number);
      next == None || next.value as nat !in chain.canon
    ensures 0 < |reply| < q.amount && |reply| < 192 && !Wraps(q, reply[|reply| - 1].number) ==>
      var n := reply[|reply| - 1].number;
      if q.reverse then n < q.skip + 1 else (n + q.skip + 1) as nat !in chain.canon
    ensures q.skip == MAX_UINT64 && q.number as nat in chain.canon ==>
      && |reply| == (if q.amount >= 0x8000_0000_0000_0000 then 0 else if q.amount < 192 then q.amount else 192)
      && forall i | 0 <= i < |reply| :: reply[i] == reply[0]
  {
    hide *;
    chain.HeadersKeyed();
    LimitIs(q.amount, 0);
    LimitMeans(q.amount);
    reply := [];
    var bytes, unknown, number: Uint64 := 0, false, q.number;
    while !unknown && |reply| < AsInt(q.amount) && bytes < SOFT_RESPONSE_LIMIT && |reply| < MAX_HEADER_FETCH
      invariant bytes == EST_HEADER_RLP_SIZE * |reply| && |reply| <= Limit(q.amount)
      invariant forall i | 0 <= i < |reply| :: CanonicalHeader(chain.headers, chain.canon, reply[i])
      invariant forall i | 0 <= i && i + 1 < |reply| :: NextNumber(q, reply[i].number) == Some(reply[i + 1].number)
      invariant if reply == [] then number == q.number else reply[0].number == q.number
      invariant unknown ==> reply != []
      invariant reply != [] ==> NextNumber(q, reply[|reply| - 1].number) == if unknown then None else Some(number)
      decreases Limit(q.amount) - |reply|
    {
      LimitIs(q.amount, |reply|);
      var hash := ReadCanonicalHash(chain.canon, number);
      NumberedIs(chain, number);
      if hash == NO_HASH {
        break;
      }
      KeyedHeader(chain, number);
      var origin := GetHeader(chain.headers, hash, number);
      reply := reply + [origin.value];
      bytes := bytes + EST_HEADER_RLP_SIZE;
      NextNumberIs(q, number);
      if q.reverse {
        if number >= Add64(q.skip, 1) {
          number := number - Add64(q.skip, 1);
        } else {
          unknown := true;
        }
      } else {
        number := Add64(number, Add64(q.skip, 1));
      }
    }
    LimitIs(q.amount, |reply|);
    NumberedIs(chain, number);
    forall i | 0 <= i && i + 1 < |reply|
      ensures Spaced(chain.headers, chain.genesis, q, reply[i], reply[i + 1]) <==> !Wraps(q, reply[i].number)
    {
      SpacedUnlessWraps(chain, q, reply[i], reply[i + 1]);
    }
    if reply != [] {
      FirstNumbered(chain, reply[0]);
      NextMeans(chain, q, reply[|reply| - 1]);
    }
    if q.skip == MAX_UINT64 && reply != [] {
      LargestSkipStays(q, reply[|reply| - 1].number);
      RepeatsOne(chain, q, reply, |reply| - 1);
    }
  }

  lemma KeyedHeader(chain: HeaderChain, n: nat)
    requires chain.Valid() && n in chain.canon && chain.canon[n] in chain.headers
    requires chain.headers[chain.canon[n]].number == n
    ensures CanonicalHeader(chain.headers, chain.canon, chain.headers[chain.canon[n]])
  {
    KeyedAt(chain.headers, chain.genesis, chain.canon[n]);
  }

  lemma NextNumberIs(q: Query, n: Uint64)
    ensures NextNumber(q, n) ==
      if !q.reverse then Some(Add64(n, Add64(q.skip, 1)))
      else if n >= Add64(q.skip, 1) then Some(n - Add64(q.skip, 1)) else None
  {
  }
}
