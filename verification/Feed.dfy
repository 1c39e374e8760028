/** One-to-many event delivery (event/feed.go). The active cases of a send are a prefix of the array that holds all
    subscribers, so moving and deleting cases changes both. Which channels can take a value at once, and which
    of the waiting parties is served next, is arbitrary. The value and its type are left out. */
module Feeds {
  type Chan = nat

  /** The channel on which a running send is told to drop a subscriber. It is case 0. */
  const REMOVE_SUB: Chan := 0

  // ---------------------------------------------------------------- case lists

  ghost function Swapped(s: seq<Chan>, i: nat, j: nat): seq<Chan>
    requires i < |s| && j < |s|
  {
    s[i := s[j]][j := s[i]]
  }

  ghost function Without(s: seq<Chan>, i: nat): seq<Chan>
    requires i < |s|
  {
    s[..i] + s[i + 1..]
  }

  lemma WithoutCounts(s: seq<Chan>, i: nat)
    requires i < |s|
    ensures multiset(Without(s, i)) + multiset{s[i]} == multiset(s)
  {
    assert s == s[..i] + [s[i]] + s[i + 1..];
  }

  /** `i` is the first index of the channel, or the length if it is not in the list. */
  ghost predicate IndexIn(s: seq<Chan>, ch: Chan, i: nat) {
    i <= |s| && ch !in s[..i] && (i < |s| ==> s[i] == ch)
  }

  method Find(a: array<Chan>, len: nat, ch: Chan) returns (i: nat)
    requires len <= a.Length
    ensures i <= len && IndexIn(a[..len], ch, i)
  {
    i := 0;
    while i < len && a[i] != ch
      invariant i <= len && ch !in a[..i]
    {
      i := i + 1;
    }
    assert a[..len][..i] == a[..i];
  }

  /** Removes the case at an index, moving the later ones down. */
  method Delete(a: array<Chan>, len: nat, index: nat)
    requires index < len <= a.Length
    modifies a
    ensures a[..len - 1] == Without(old(a[..len]), index)
  {
    var j := index;
    while j + 1 < len
      invariant index <= j < len
      invariant forall m | 0 <= m < j :: a[m] == if m < index then old(a[m]) else old(a[m + 1])
      invariant forall m | j < m < len :: a[m] == old(a[m])
    {
      a[j] := a[j + 1];
      j := j + 1;
    }
  }

  /** Moves the case at an index out of the active part. */
  method Deactivate(a: array<Chan>, active: nat, index: nat)
    requires index < active <= a.Length
    modifies a
    ensures a[..] == Swapped(old(a[..]), index, active - 1)
  {
    a[index], a[active - 1] := a[active - 1], a[index];
  }

  // ---------------------------------------------------------------- the bookkeeping of a send

  /** Of the subscribers `all` at the start of the send, those still waiting are the active cases; the others got the
      value or were dropped before. Of those that got it, all but the ones dropped since are still subscribed. */
  ghost predicate Sending(s: seq<Chan>, active: nat, all: multiset<Chan>,
                          delivered: multiset<Chan>, skipped: multiset<Chan>, gone: multiset<Chan>)
  {
    && 1 <= active <= |s|
    && multiset(s[1..active]) + delivered + skipped == all
    && multiset(s[active..]) + gone == delivered
  }

  lemma SendingStarts(s: seq<Chan>)
    requires 1 <= |s|
    ensures Sending(s, |s|, multiset(s[1..]), multiset{}, multiset{}, multiset{})
  {
    assert s[1..|s|] == s[1..] && s[|s|..] == [];
  }

  lemma Delivers(s: seq<Chan>, active: nat, i: nat, all: multiset<Chan>,
                 delivered: multiset<Chan>, skipped: multiset<Chan>, gone: multiset<Chan>)
    requires Sending(s, active, all, delivered, skipped, gone) && 1 <= i < active
    ensures Sending(Swapped(s, i, active - 1), active - 1, all, delivered + multiset{s[i]}, skipped, gone)
  {
    var t := Swapped(s, i, active - 1);
    SwapSplits(s, active, i);
    assert t[active - 1..] == [s[i]] + s[active..];
  }

  lemma SwapSplits(s: seq<Chan>, active: nat, i: nat)
    requires 1 <= i < active <= |s|
    ensures multiset(Swapped(s, i, active - 1)[1..active - 1]) + multiset{s[i]} == multiset(s[1..active])
  {
    var t, last := Swapped(s, i, active - 1), s[active - 1];
    if i == active - 1 {
      assert t[1..active - 1] == s[1..active - 1];
      SliceEnds(s, active);
    } else {
      assert t[1..active - 1] == s[1..i] + [last] + s[i + 1..active - 1];
      assert s[1..active] == s[1..i] + [s[i]] + s[i + 1..active - 1] + [last];
      Reorders(s[1..i], last, s[i + 1..active - 1], s[i]);
    }
  }

  lemma SliceEnds(s: seq<Chan>, n: nat)
    requires 1 < n <= |s|
    ensures s[1..n] == s[1..n - 1] + [s[n - 1]]
  {
  }

  lemma Reorders(a: seq<Chan>, x: Chan, b: seq<Chan>, y: Chan)
    ensures multiset(a + [x] + b) + multiset{y} == multiset(a + [y] + b + [x])
  {
  }

  lemma DropsWaiting(s: seq<Chan>, active: nat, i: nat, all: multiset<Chan>,
                     delivered: multiset<Chan>, skipped: multiset<Chan>, gone: multiset<Chan>)
    requires Sending(s, active, all, delivered, skipped, gone) && 1 <= i < active
    ensures Sending(Without(s, i), active - 1, all, delivered, skipped + multiset{s[i]}, gone)
  {
    var t := Without(s, i);
    assert t[1..active - 1] == s[1..i] + s[i + 1..active];
    assert s[1..active] == s[1..i] + [s[i]] + s[i + 1..active];
    assert t[active - 1..] == s[active..];
  }

  lemma DropsServed(s: seq<Chan>, active: nat, i: nat, all: multiset<Chan>,
                    delivered: multiset<Chan>, skipped: multiset<Chan>, gone: multiset<Chan>)
    requires Sending(s, active, all, delivered, skipped, gone) && active <= i < |s|
    ensures Sending(Without(s, i), active, all, delivered, skipped, gone + multiset{s[i]})
  {
    var t := Without(s, i);
    assert t[1..active] == s[1..active];
    assert t[active..] == s[active..i] + s[i + 1..];
    assert s[active..] == s[active..i] + [s[i]] + s[i + 1..];
  }

  lemma SendingEnds(s: seq<Chan>, all: multiset<Chan>, delivered: multiset<Chan>, skipped: multiset<Chan>,
                    gone: multiset<Chan>)
    requires Sending(s, 1, all, delivered, skipped, gone)
    ensures delivered + skipped == all && multiset(s[1..]) + gone == delivered
  {
    assert s[1..1] == [];
  }

  // ---------------------------------------------------------------- the feed

  /** Each subscription is in the case list or the inbox, and each one waiting to be dropped from a case list is in it. */
  ghost predicate Consistent(s: seq<Chan>, inbox: seq<Chan>, subs: multiset<Chan>, pending: multiset<Chan>) {
    && |s| >= 1 && s[0] == REMOVE_SUB && REMOVE_SUB !in s[1..] && REMOVE_SUB !in inbox
    && subs == multiset(s[1..]) + multiset(inbox)
    && pending <= multiset(s[1..])
  }

  lemma Subscribes(s: seq<Chan>, inbox: seq<Chan>, subs: multiset<Chan>, pending: multiset<Chan>, ch: Chan)
    requires Consistent(s, inbox, subs, pending) && ch != REMOVE_SUB
    ensures Consistent(s, inbox + [ch], subs + multiset{ch}, pending)
  {
  }

  lemma LeavesInbox(s: seq<Chan>, inbox: seq<Chan>, subs: multiset<Chan>, pending: multiset<Chan>, i: nat)
    requires Consistent(s, inbox, subs, pending) && i < |inbox|
    ensures Consistent(s, Without(inbox, i), subs - multiset{inbox[i]}, pending)
  {
    WithoutCounts(inbox, i);
  }

  /** A subscription that is not in the inbox is in the case list, and not yet being dropped. */
  lemma MustBeListed(s: seq<Chan>, inbox: seq<Chan>, subs: multiset<Chan>, pending: multiset<Chan>, ch: Chan)
    requires Consistent(s, inbox, subs, pending) && ch in subs - pending && ch !in inbox
    ensures Consistent(s, inbox, subs, pending + multiset{ch})
  {
  }

  /** A pending removal finds its channel among the cases after the first. */
  lemma PendingListed(s: seq<Chan>, inbox: seq<Chan>, subs: multiset<Chan>, pending: multiset<Chan>, ch: Chan, i: nat)
    requires Consistent(s, inbox, subs, pending) && ch in pending && IndexIn(s, ch, i)
    ensures 1 <= i < |s| && s[i] == ch
    ensures Consistent(Without(s, i), inbox, subs - multiset{ch}, pending - multiset{ch})
  {
    PendingIndex(s, pending, ch, i);
    var rest := s[1..];
    WithoutRest(s, i);
    WithoutCounts(rest, i - 1);
    Drops(rest, Without(rest, i - 1), inbox, subs, pending, ch);
  }

  lemma PendingIndex(s: seq<Chan>, pending: multiset<Chan>, ch: Chan, i: nat)
    requires |s| >= 1 && s[0] == REMOVE_SUB && REMOVE_SUB !in s[1..] && pending <= multiset(s[1..]) && ch in pending
    requires IndexIn(s, ch, i)
    ensures 1 <= i < |s| && s[i] == ch
  {
    assert ch in s[1..];
    assert s[..|s|] == s;
  }

  lemma WithoutRest(s: seq<Chan>, i: nat)
    requires 1 <= i < |s|
    ensures Without(s, i)[1..] == Without(s[1..], i - 1) && Without(s, i)[0] == s[0] && s[1..][i - 1] == s[i]
  {
  }

  lemma Drops(rest: seq<Chan>, rest': seq<Chan>, inbox: seq<Chan>, subs: multiset<Chan>, pending: multiset<Chan>,
              ch: Chan)
    requires multiset(rest') + multiset{ch} == multiset(rest) && REMOVE_SUB !in rest
    requires subs == multiset(rest) + multiset(inbox) && pending <= multiset(rest)
    ensures REMOVE_SUB !in rest' && subs - multiset{ch} == multiset(rest') + multiset(inbox)
    ensures pending - multiset{ch} <= multiset(rest')
  {
    assert REMOVE_SUB in rest' ==> REMOVE_SUB in multiset(rest') + multiset{ch};
  }

  lemma TakesInbox(s: seq<Chan>, inbox: seq<Chan>, subs: multiset<Chan>, pending: multiset<Chan>)
    requires Consistent(s, inbox, subs, pending)
    ensures Consistent(s + inbox, [], subs, pending) && multiset((s + inbox)[1..]) == subs
  {
    assert (s + inbox)[1..] == s[1..] + inbox;
  }

  lemma SwapConsistent(s: seq<Chan>, inbox: seq<Chan>, subs: multiset<Chan>, pending: multiset<Chan>, active: nat,
                       i: nat)
    requires Consistent(s, inbox, subs, pending) && 1 <= i < active <= |s|
    ensures Consistent(Swapped(s, i, active - 1), inbox, subs, pending)
  {
    SwapCounts(s, active, i);
    SameMembers(s[1..], Swapped(s, i, active - 1)[1..], REMOVE_SUB);
  }

  lemma SwapCounts(s: seq<Chan>, active: nat, i: nat)
    requires 1 <= i < active <= |s|
    ensures multiset(Swapped(s, i, active - 1)[1..]) == multiset(s[1..]) && Swapped(s, i, active - 1)[0] == s[0]
  {
    var t := Swapped(s, i, active - 1);
    SwapSplits(s, active, i);
    assert t[1..] == t[1..active - 1] + [s[i]] + s[active..];
    assert s[1..] == s[1..active] + s[active..];
  }

  lemma SameMembers(s: seq<Chan>, t: seq<Chan>, x: Chan)
    requires multiset(s) == multiset(t)
    ensures x in s <==> x in t
  {
    assert x in s <==> x in multiset(s);
    assert x in t <==> x in multiset(t);
  }

  method FindIn(s: seq<Chan>, ch: Chan) returns (i: nat)
    ensures i <= |s| && (i < |s| ==> s[i] == ch) && (i == |s| ==> ch !in s)
  {
    i := 0;
    while i < |s| && s[i] != ch
      invariant i <= |s| && ch !in s[..i]
    {
      i := i + 1;
    }
  }

  lemma Remaining(subs: multiset<Chan>, pending: multiset<Chan>, ch: Chan)
    requires ch in subs - pending
    ensures (subs - multiset{ch}) - pending == (subs - pending) - multiset{ch} == subs - (pending + multiset{ch})
  {
  }

  lemma DropsAdd(d: multiset<Chan>, d1: multiset<Chan>, d2: multiset<Chan>, s1: multiset<Chan>, g1: multiset<Chan>,
                 s2: multiset<Chan>, g2: multiset<Chan>)
    requires d1 == d + s1 + g1 && d2 + s1 + g1 == d1 + s2 + g2
    ensures d2 == d + s2 + g2
  {
    assert (d2 + s1 + g1) - g1 - s1 == d2;
    assert (d + s1 + g1 + s2 + g2) - g1 - s1 == d + s2 + g2;
  }

  lemma WithoutIs(s: seq<Chan>, i: nat)
    requires i < |s|
    ensures Without(s, i) == s[..i] + s[i + 1..]
  {
  }

  lemma SwappedPrefix(s: seq<Chan>, n: nat, i: nat, j: nat)
    requires i < n <= |s| && j < n
    ensures Swapped(s, i, j)[..n] == Swapped(s[..n], i, j)
  {
  }

  lemma SendingIs(s: seq<Chan>, active: nat, all: multiset<Chan>, delivered: multiset<Chan>, skipped: multiset<Chan>,
                  gone: multiset<Chan>)
    requires Sending(s, active, all, delivered, skipped, gone)
    ensures 1 <= active <= |s|
  {
  }

  class Feed {
    var sendCases: array<Chan>
    var len: nat
    var inbox: seq<Chan>
    // The subscriptions, and those whose removal waits for a send to take notice or to end.
    var subs: multiset<Chan>
    var pending: multiset<Chan>
    // The removals carried out on the case list so far.
    ghost var drops: multiset<Chan>

    /** The case list. */
    ghost function Cases(): seq<Chan>
      requires len <= sendCases.Length
      reads this`sendCases, this`len, sendCases
    {
      sendCases[..len]
    }

    ghost predicate Valid()
      reads this, sendCases
    {
      len <= sendCases.Length && Consistent(Cases(), inbox, subs, pending)
    }

    lemma ValidIs()
      ensures Valid() <==> len <= sendCases.Length && Consistent(Cases(), inbox, subs, pending)
      ensures len <= sendCases.Length ==> Cases() == sendCases[..len] && |Cases()| == len
    {
    }

    constructor ()
      ensures Valid() && subs == pending == multiset{} && fresh(sendCases)
    {
      sendCases := new Chan[1](_ => REMOVE_SUB);
      len, inbox, subs, pending, drops := 1, [], multiset{}, multiset{}, multiset{};
    }

    method Subscribe(ch: Chan)
      requires Valid() && ch != REMOVE_SUB
      modifies this`inbox, this`subs
      ensures Valid() && subs == old(subs) + multiset{ch}
    {
      hide *;
      ValidIs();
      Subscribes(Cases(), inbox, subs, pending, ch);
      inbox := inbox + [ch];
      subs := subs + multiset{ch};
      ValidIs();
    }

    /** The first half of removing a subscription: it is deleted if it is still in the inbox. */
    method Unsubscribe(ch: Chan)
      requires Valid() && ch in subs - pending
      modifies this`inbox, this`subs, this`pending
      ensures Valid() && subs - pending == old(subs - pending) - multiset{ch}
    {
      hide *;
      ValidIs();
      var i := FindIn(inbox, ch);
      Remaining(subs, pending, ch);
      if i < |inbox| {
        LeavesInbox(Cases(), inbox, subs, pending, i);
        WithoutIs(inbox, i);
        inbox := inbox[..i] + inbox[i + 1..];
        subs := subs - multiset{ch};
      } else {
        MustBeListed(Cases(), inbox, subs, pending, ch);
        pending := pending + multiset{ch};
      }
      ValidIs();
    }

    /** The second half, with or without a send in progress: the channel is found among the cases and deleted. */
    method DropPending(ch: Chan) returns (index: nat)
      requires Valid() && ch in pending
      modifies this`len, this`subs, this`pending, this`drops, sendCases
      ensures drops == old(drops) + multiset{ch}
      ensures Valid() && len == old(len) - 1 && pending == old(pending) - multiset{ch}
      ensures subs == old(subs) - multiset{ch}
      ensures 1 <= index < old(len) <= sendCases.Length && old(Cases()[index]) == ch
      ensures Cases() == Without(old(Cases()), index)
    {
      hide *;
      index := FindPending(ch);
      RemoveAt(index);
      subs := subs - multiset{ch};
      pending := pending - multiset{ch};
      drops := drops + multiset{ch};
      ValidIs();
    }

    /** A removal that waits finds its channel among the cases. */
    method FindPending(ch: Chan) returns (index: nat)
      requires Valid() && ch in pending
      ensures 1 <= index < len <= sendCases.Length && Cases()[index] == ch
      ensures Consistent(Without(Cases(), index), inbox, subs - multiset{ch}, pending - multiset{ch})
    {
      hide *;
      ValidIs();
      index := Find(sendCases, len, ch);
      PendingListed(Cases(), inbox, subs, pending, ch, index);
    }

    method RemoveAt(index: nat)
      requires index < len <= sendCases.Length
      modifies this`len, sendCases
      ensures len == old(len) - 1 && Cases() == Without(old(Cases()), index)
    {
      hide Without;
      Delete(sendCases, len, index);
      len := len - 1;
    }

    /** What other parties may do while a send waits: subscribe and start to unsubscribe. */
    method Others()
      requires Valid()
      modifies this`inbox, this`subs, this`pending
      ensures Valid()
    {
      var n :| 0 <= n;
      for i := 0 to n
        invariant Valid()
      {
        var ch: Chan := *;
        if ch in subs - pending {
          Unsubscribe(ch);
        } else if ch != REMOVE_SUB {
          Subscribe(ch);
        }
      }
    }

    /** One case got the value. */
    method Served(active: nat, i: nat, ghost all: multiset<Chan>, ghost delivered: multiset<Chan>,
                  ghost skipped: multiset<Chan>, ghost gone: multiset<Chan>)
      requires Valid() && 1 <= i < active <= len <= sendCases.Length
      requires Sending(Cases(), active, all, delivered, skipped, gone)
      modifies sendCases
      ensures Valid() && Sending(Cases(), active - 1, all, delivered + multiset{old(sendCases[i])}, skipped, gone)
    {
      hide *;
      ValidIs();
      ghost var s := Cases();
      Delivers(s, active, i, all, delivered, skipped, gone);
      SwapConsistent(s, inbox, subs, pending, active, i);
      Deactivate(sendCases, active, i);
      SwappedPrefix(old(sendCases[..]), len, i, active - 1);
      assert sendCases[..len] == sendCases[..][..len];
      ValidIs();
    }

    /** The fast path: every active case is tried once, without blocking. */
    method TrySends(start: nat, ghost all: multiset<Chan>, ghost delivered0: multiset<Chan>,
                    ghost skipped: multiset<Chan>,
                    ghost gone: multiset<Chan>)
      returns (active: nat, sent: nat, ghost delivered: multiset<Chan>)
      requires Valid() && Sending(Cases(), start, all, delivered0, skipped, gone)
      modifies sendCases
      ensures Valid() && 1 <= active <= start && Sending(Cases(), active, all, delivered, skipped, gone)
      ensures |delivered| == |delivered0| + sent
    {
      hide *;
      ValidIs();
      SendingIs(Cases(), start, all, delivered0, skipped, gone);
      active, sent, delivered := start, 0, delivered0;
      var i: nat := 1;
      while i < active
        invariant Valid() && len <= sendCases.Length && 1 <= i && 1 <= active <= start <= len
        invariant Sending(Cases(), active, all, delivered, skipped, gone)
        invariant |delivered| == |delivered0| + sent
        decreases active - i
      {
        var taken: bool := *;
        if taken {
          ghost var ch := sendCases[i];
          Served(active, i, all, delivered, skipped, gone);
          sent, active, delivered := sent + 1, active - 1, delivered + multiset{ch};
        } else {
          i := i + 1;
        }
      }
    }

    /** Delivers a value. Every subscription there was at the start gets it exactly once, unless it is removed first; the
        count returned is the number of deliveries; and the send ends. */
    method Send() returns (nsent: nat, ghost delivered: multiset<Chan>, ghost skipped: multiset<Chan>,
                ghost gone: multiset<Chan>)
      requires Valid()
      modifies this, sendCases
      ensures Valid() && fresh(sendCases) && 1 <= len <= sendCases.Length
      ensures delivered + skipped == old(subs) && nsent == |delivered| && drops == old(drops) + skipped + gone
      ensures multiset(Cases()[1..]) + gone == delivered
    {
      hide *;
      ghost var all := subs;
      nsent, delivered, skipped, gone := 0, multiset{}, multiset{}, multiset{};
      Extend();
      ValidIs();
      var active: nat := len;
      SendingStarts(Cases());
      while true
        invariant Valid() && fresh(sendCases) && 1 <= active <= len <= sendCases.Length && nsent == |delivered|
        invariant Sending(Cases(), active, all, delivered, skipped, gone) && drops == old(drops) + skipped + gone
        decreases len + active
      {
        var sent;
        active, sent, delivered := TrySends(active, all, delivered, skipped, gone);
        nsent := nsent + sent;
        if active == 1 {
          break;
        }
        Others();
        ghost var skipped0, gone0, drops0 := skipped, gone, drops;
        active, sent, delivered, skipped, gone := SelectOne(active, all, delivered, skipped, gone);
        DropsAdd(old(drops), drops0, drops, skipped0, gone0, skipped, gone);
        nsent := nsent + sent;
      }
      SendingEnds(Cases(), all, delivered, skipped, gone);
    }

    /** Waits for one of the active cases: a subscriber takes the value or one is dropped. */
    method SelectOne(active: nat, ghost all: multiset<Chan>, ghost delivered: multiset<Chan>,
                     ghost skipped: multiset<Chan>,
                     ghost gone: multiset<Chan>)
      returns (active': nat, sent: nat, ghost delivered': multiset<Chan>, ghost skipped': multiset<Chan>,
               ghost gone': multiset<Chan>)
      requires Valid() && 1 < active <= len <= sendCases.Length
      requires Sending(Cases(), active, all, delivered, skipped, gone)
      modifies this`len, this`subs, this`pending, this`drops, sendCases
      ensures drops + skipped + gone == old(drops) + skipped' + gone'
      ensures Valid() && 1 <= active' <= len <= sendCases.Length && |delivered'| == |delivered| + sent
      ensures Sending(Cases(), active', all, delivered', skipped', gone')
      ensures len <= old(len) && active' <= active && len + active' < old(len) + active
    {
      hide *;
      ValidIs();
      active', sent, delivered', skipped', gone' := active, 0, delivered, skipped, gone;
      var dropping: bool := *;
      if dropping && pending != multiset{} {
        var ch :| ch in pending;
        ghost var s := Cases();
        var index := DropPending(ch);
        if index < active {
          DropsWaiting(s, active, index, all, delivered, skipped, gone);
          active', skipped' := active - 1, skipped + multiset{ch};
        } else {
          DropsServed(s, active, index, all, delivered, skipped, gone);
          gone' := gone + multiset{ch};
        }
      } else {
        var chosen: nat :| 1 <= chosen < active;
        ghost var ch := sendCases[chosen];
        Served(active, chosen, all, delivered, skipped, gone);
        active', sent, delivered' := active - 1, 1, delivered + multiset{ch};
      }
      ValidIs();
    }

    /** Moves the inbox to the case list. */
    method Extend()
      requires Valid()
      modifies this`sendCases, this`len, this`inbox
      ensures Valid() && fresh(sendCases) && inbox == [] && 1 <= len <= sendCases.Length
      ensures multiset(Cases()[1..]) == subs
    {
      hide *;
      ValidIs();
      ghost var s := Cases();
      TakesInbox(s, inbox, subs, pending);
      var all := sendCases[..len] + inbox;
      var grown := new Chan[|all|](i requires 0 <= i < |all| => all[i]);
      sendCases, len, inbox := grown, |all|, [];
      assert sendCases[..len] == all;
      ValidIs();
    }
  }
}
