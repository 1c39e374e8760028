/** The section indexer (core/chain_indexer.go): two threads over one state. A section is processed with the lock
    released, one header at a time, while head notices, reorgs and checkpoints may change the index; what the
    chain database and the backend answer in between is arbitrary. */
module ChainIndexers {
  import opened Basics
  import opened HeaderTree

  /** The update loop: idle, or processing a section that is to follow `oldHead`, with the headers read so far, or
      about to report that this failed. */
  datatype Job = Idle | Processing(section: nat, oldHead: Hash, done: seq<Header>) | Failed

  /** What the other parties may do next. */
  datatype Step =
    | NewHead(head: nat, reorg: bool, synced: Hash)
    | AddCheckpoint(section: nat, shead: Hash)
    | Begin
    | ResetFails
    | ReadHeader(canonical: Hash, header: Option<Header>)
    | ProcessFails
    | Finish
    | Restart

  function Start(section: nat, size: nat): nat {
    section * size
  }

  /** The section a block number is in. */
  function SectionOf(number: nat, size: nat): nat
    requires size > 0
  {
    number / size
  }

  /** The block is between the section's first block and that of the next section. */
  lemma SectionStarts(number: nat, size: nat)
    requires size > 0
    ensures SectionOf(number, size) * size <= number < (SectionOf(number, size) + 1) * size
    ensures Start(SectionOf(number, size), size) <= number < Start(SectionOf(number, size) + 1, size)
  {
  }

  /** A section ends at or below a block exactly if it comes before the block's own section. */
  lemma EndsBefore(i: nat, number: nat, size: nat)
    requires size > 0
    ensures Start(i + 1, size) <= number <==> i < SectionOf(number, size)
  {
    SectionStarts(number, size);
    var n := SectionOf(number, size);
    if i < n {
      assert (i + 1) * size <= n * size;
    } else {
      assert (i + 1) * size >= (n + 1) * size;
    }
  }

  /** A later section starts no earlier. */
  lemma StartsLater(i: nat, j: nat, size: nat)
    requires i <= j
    ensures Start(i, size) <= Start(j, size)
  {
  }

  lemma NextStart(section: nat, size: nat)
    ensures Start(section + 1, size) == Start(section, size) + size && Start(0, size) == 0
  {
  }

  /** The headers follow each other from `prev` on, numbered from `start`. */
  ghost predicate Chained(run: seq<Header>, prev: Hash, start: nat) {
    forall j: nat | j < |run| :: FollowsAt(run, prev, start, j)
  }

  ghost predicate FollowsAt(run: seq<Header>, prev: Hash, start: nat, j: nat)
    requires j < |run|
  {
    run[j].number == start + j && run[j].hash != NO_HASH && run[j].parent == LastOf(run[..j], prev)
  }

  function LastOf(run: seq<Header>, prev: Hash): Hash {
    if run == [] then prev else run[|run| - 1].hash
  }

  lemma ChainsOn(run: seq<Header>, prev: Hash, start: nat, x: Header)
    requires Chained(run, prev, start) && x.number == start + |run| && x.hash != NO_HASH
    requires x.parent == LastOf(run, prev)
    ensures Chained(run + [x], prev, start)
  {
    forall j: nat | j < |run + [x]| ensures FollowsAt(run + [x], prev, start, j) {
      assert (run + [x])[..j] == run[..j];
      assert j < |run| ==> FollowsAt(run, prev, start, j);
      assert run[..|run|] == run;
    }
  }

  lemma ChainsJoin(a: seq<Header>, b: seq<Header>, prev: Hash, start: nat)
    requires Chained(a, prev, start) && Chained(b, LastOf(a, prev), start + |a|)
    ensures Chained(a + b, prev, start) && LastOf(a + b, prev) == LastOf(b, LastOf(a, prev))
  {
    forall j: nat | j < |a + b| ensures FollowsAt(a + b, prev, start, j) {
      if j < |a| {
        assert (a + b)[..j] == a[..j];
        assert FollowsAt(a, prev, start, j);
      } else {
        assert (a + b)[..j] == a + b[..j - |a|];
        assert FollowsAt(b, LastOf(a, prev), start + |a|, j - |a|);
      }
    }
  }

  function HeadOf(heads: map<nat, Hash>, section: nat): Hash {
    if section in heads then heads[section] else NO_HASH
  }

  /** The head of the section before, the empty hash before the first. */
  function HeadBefore(heads: map<nat, Hash>, section: nat): Hash {
    if section == 0 then NO_HASH else HeadOf(heads, section - 1)
  }

  /** The section's head ends a run of exactly `size` linked headers that starts right after the head before. */
  ghost predicate Linked(heads: map<nat, Hash>, runs: map<nat, seq<Header>>, size: nat, i: nat) {
    && (i > 0 ==> i - 1 in heads)
    && i in heads && i in runs && |runs[i]| == size
    && Chained(runs[i], HeadBefore(heads, i), Start(i, size))
    && heads[i] == LastOf(runs[i], HeadBefore(heads, i))
  }

  /** Heads are stored below `stored` only, the last section has one, and each that was not given by a checkpoint
      is linked. */
  ghost predicate Sections(heads: map<nat, Hash>, runs: map<nat, seq<Header>>, given: set<nat>, stored: nat,
                           size: nat) {
    && (forall i | i in heads :: i < stored && heads[i] != NO_HASH)
    && (stored > 0 ==> stored - 1 in heads)
    && (forall i | i in given :: i in heads)
    && (forall i | i in heads && i !in given :: Linked(heads, runs, size, i))
  }

  ghost function Under(given: set<nat>, n: nat): set<nat> {
    set i | i in given && i < n
  }

  function HeadsUnder(heads: map<nat, Hash>, n: nat): map<nat, Hash> {
    map i | i in heads && i < n :: heads[i]
  }

  lemma LinkedUnder(heads: map<nat, Hash>, runs: map<nat, seq<Header>>, size: nat, i: nat, n: nat)
    requires Linked(heads, runs, size, i) && i < n
    ensures Linked(HeadsUnder(heads, n), runs, size, i)
  {
  }

  /** Dropping sections from the top until one that has a head is left, or none. */
  lemma Truncates(heads: map<nat, Hash>, runs: map<nat, seq<Header>>, given: set<nat>, stored: nat, size: nat, n: nat)
    requires Sections(heads, runs, given, stored, size) && (n > 0 ==> n - 1 in heads)
    ensures Sections(HeadsUnder(heads, n), runs, Under(given, n), n, size)
  {
    hide Linked;
    forall i | i in HeadsUnder(heads, n) && i !in Under(given, n) ensures Linked(HeadsUnder(heads, n), runs, size, i) {
      LinkedUnder(heads, runs, size, i, n);
    }
  }

  /** Replacing everything from `n` on by one section, linked or given. */
  lemma Appends(heads: map<nat, Hash>, runs: map<nat, seq<Header>>, given: set<nat>, stored: nat, size: nat, n: nat,
                h: Hash,
                run: seq<Header>)
    requires Sections(heads, runs, given, stored, size) && h != NO_HASH && (n > 0 ==> n - 1 in heads) && |run| == size
    requires Chained(run, HeadBefore(heads, n), Start(n, size)) && h == LastOf(run, HeadBefore(heads, n))
    ensures Sections(HeadsUnder(heads, n)[n := h], runs[n := run], Under(given, n), n + 1, size)
  {
    hide Chained, LastOf, Start;
    var heads', runs' := HeadsUnder(heads, n)[n := h], runs[n := run];
    forall i | i in heads' && i !in Under(given, n) ensures Linked(heads', runs', size, i) {
      if i < n {
        assert Linked(heads, runs, size, i);
        assert HeadBefore(heads', i) == HeadBefore(heads, i);
      } else {
        assert HeadBefore(heads', n) == HeadBefore(heads, n);
      }
    }
  }

  lemma Gives(heads: map<nat, Hash>, runs: map<nat, seq<Header>>, given: set<nat>, stored: nat, size: nat, n: nat,
              h: Hash)
    requires Sections(heads, runs, given, stored, size) && h != NO_HASH && stored <= n
    ensures Sections(heads[n := h], runs, given + {n}, n + 1, size)
  {
    hide Chained, LastOf, Start;
    forall i | i in heads[n := h] && i !in given + {n} ensures Linked(heads[n := h], runs, size, i) {
      assert Linked(heads, runs, size, i);
      assert HeadBefore(heads[n := h], i) == HeadBefore(heads, i);
    }
  }

  /** The canonical header read for the next number exists and follows the last one. */
  predicate Next(job: Job, size: nat, canonical: Hash, found: Option<Header>)
    requires job.Processing?
  {
    && canonical != NO_HASH && found.Some? && found.value.hash == canonical
    && found.value.number == Start(job.section, size) + |job.done| && found.value.parent == LastOf(job.done, job.oldHead)
  }

  /** The headers processed so far follow the head the section started from. */
  ghost predicate Working(job: Job, size: nat) {
    job.Processing? ==>
      && (if job.section == 0 then job.oldHead == NO_HASH else job.oldHead != NO_HASH)
      && |job.done| <= size && Chained(job.done, job.oldHead, Start(job.section, size))
  }

  // ---------------------------------------------------------------- what the sections mean

  /** Without checkpoints, section heads exist exactly for the sections below the stored count; in general, from any
      section on above which no checkpoint was given. */
  lemma {:induction false} HeadsExactly(heads: map<nat, Hash>, runs: map<nat, seq<Header>>, given: set<nat>,
      stored: nat, size: nat,
                                        base: nat, i: nat)
    requires Sections(heads, runs, given, stored, size) && (forall g | g in given :: g <= base) && base <= i < stored
    ensures i in heads
    decreases stored - i
  {
    hide Chained;
    if i + 1 < stored {
      HeadsExactly(heads, runs, given, stored, size, base, i + 1);
      assert Linked(heads, runs, size, i + 1);
    }
  }

  ghost function Joined(runs: map<nat, seq<Header>>, lo: nat, hi: nat): seq<Header>
    requires lo <= hi && forall i | lo <= i < hi :: i in runs
  {
    if lo == hi then [] else Joined(runs, lo, hi - 1) + runs[hi - 1]
  }

  /** The processed sections together are one unbroken chain of headers. */
  lemma {:induction false} SectionsJoin(heads: map<nat, Hash>, runs: map<nat, seq<Header>>, size: nat, lo: nat, hi: nat)
    requires 0 < size && lo < hi && forall i | lo <= i < hi :: i in runs && Linked(heads, runs, size, i)
    ensures |Joined(runs, lo, hi)| == Start(hi, size) - Start(lo, size)
    ensures Chained(Joined(runs, lo, hi), HeadBefore(heads, lo), Start(lo, size))
    ensures HeadOf(heads, hi - 1) == LastOf(Joined(runs, lo, hi), HeadBefore(heads, lo))
    decreases hi
  {
    hide Start, Chained;
    NextStart(hi - 1, size);
    assert Linked(heads, runs, size, hi - 1);
    if lo == hi - 1 {
      assert Joined(runs, lo, hi) == [] + runs[hi - 1] == runs[hi - 1];
    } else {
      SectionsJoin(heads, runs, size, lo, hi - 1);
      ChainsJoin(Joined(runs, lo, hi - 1), runs[hi - 1], HeadBefore(heads, lo), Start(lo, size));
    }
  }

  /** Sections below the checkpoint are not counted. */
  function Reached(sections: nat, checkpointSections: nat): nat {
    if sections < checkpointSections then 0 else sections
  }

  lemma SectionsUnder(heads: map<nat, Hash>, runs: map<nat, seq<Header>>, given: set<nat>, stored: nat, size: nat)
    requires Sections(heads, runs, given, stored, size)
    ensures (forall i | i in heads :: i < stored) && HeadsUnder(heads, stored) == heads && Under(given, stored) == given
  {
  }

  lemma LastStored(run: seq<Header>, prev: Hash, start: nat)
    requires Chained(run, prev, start) && run != []
    ensures LastOf(run, prev) != NO_HASH
  {
    assert FollowsAt(run, prev, start, |run| - 1);
  }

  lemma SetBelow(heads: map<nat, Hash>, n: nat, h: Hash, stored: nat)
    requires forall i | i in heads :: i < stored
    ensures HeadsUnder(heads[n := h], n + 1) == HeadsUnder(heads, n)[n := h]
  {
  }

  lemma StartIs(size: nat)
    ensures forall i: nat :: Start(i, size) == i * size
  {
  }

  lemma UnderPart(given: set<nat>, n: nat)
    ensures Under(given, n) <= given
  {
  }

  lemma KnownBelow(known: nat, known': nat, head: nat, size: nat, checkpointSections: nat)
    requires size > 0 && known' == Min(known, Reached(SectionOf(head, size), checkpointSections))
    ensures Start(known', size) <= head && (checkpointSections == 0 ==> known' == known || Start(known' + 1, size) > head)
  {
    hide SectionOf, Start;
    SectionStarts(head, size);
    StartsLater(known', SectionOf(head, size), size);
  }

  lemma ReorgNumbers(section: nat, checkpointSections: nat, stored: nat, known: nat)
    ensures Max(section, checkpointSections) == if section < checkpointSections then checkpointSections else section
    ensures Reached(section, checkpointSections) == if section < checkpointSections then 0 else section
    ensures forall n: nat :: Min(stored, n) == (if n < stored then n else stored) && Min(known, n) == (if n < known then n else known)
  {
  }

  /** Of the stored sections exactly those stay that end at or below the block, or that a checkpoint covers. */
  ghost predicate StayBelow(heads: map<nat, Hash>, heads': map<nat, Hash>, head: nat, size: nat, checkpointSections: nat) {
    forall i: nat | i in heads :: i in heads' <==> Start(i + 1, size) <= head || i < checkpointSections
  }

  /** What a reorg to `head` keeps, in block numbers. */
  lemma StaysBelow(heads: map<nat, Hash>, heads': map<nat, Hash>, stored: nat, stored': nat, head: nat, size: nat,
                   checkpointSections: nat)
    requires size > 0 && (forall i | i in heads :: i < stored) && heads' == HeadsUnder(heads, stored')
    requires stored' == Min(stored, Max(SectionOf(head, size), checkpointSections))
    ensures StayBelow(heads, heads', head, size, checkpointSections)
  {
    hide SectionOf, Start;
    forall i: nat | i in heads ensures i in heads' <==> Start(i + 1, size) <= head || i < checkpointSections {
      EndsBefore(i, head, size);
    }
  }

  class ChainIndexer {
    const size: nat
    const confirms: nat
    // The index database.
    var heads: map<nat, Hash>
    var count: nat
    // The state in memory.
    var stored: nat
    var known: nat
    var cascaded: int
    var checkpointSections: nat
    var checkpointHead: Hash
    var job: Job
    // Which sections a checkpoint gave, and the headers of the processed ones.
    ghost var given: set<nat>
    ghost var runs: map<nat, seq<Header>>

    /** Head, count and run are consistent; a checkpoint is never above the known one. */
    ghost predicate Valid()
      reads this
    {
      && size > 0
      && count == stored
      && Sections(heads, runs, given, stored, size)
      && Working(job, size)
      && (forall g | g in given :: g < checkpointSections)
      && (checkpointSections > 0 ==> checkpointHead != NO_HASH)
    }

    constructor (size: nat, confirms: nat)
      requires size > 0
      ensures Valid() && heads == map[] && stored == 0 && given == {} && this.size == size && this.confirms == confirms
    {
      this.size, this.confirms := size, confirms;
      heads, count, stored, known, cascaded := map[], 0, 0, 0, 0;
      checkpointSections, checkpointHead, job := 0, NO_HASH, Idle;
      given, runs := {}, map[];
    }

    /** Writes the count and removes the heads of the sections from it on. */
    method SetValidSections(sections: nat)
      requires forall i | i in heads :: i < stored || i < sections
      modifies this`heads, this`count, this`stored
      ensures count == stored == sections && heads == HeadsUnder(old(heads), sections)
    {
      count := sections;
      while stored > sections
        invariant count == sections && heads == map i | i in old(heads) && (i < stored || i < sections) :: old(heads)[i]
      {
        stored := stored - 1;
        heads := heads - {stored};
      }
      stored := sections;
      assert heads == HeadsUnder(old(heads), sections);
    }

    lemma ValidIs()
      ensures Valid() <==>
        && size > 0 && count == stored && Sections(heads, runs, given, stored, size) && Working(job, size)
        && (forall g | g in given :: g < checkpointSections) && (checkpointSections > 0 ==> checkpointHead != NO_HASH)
    {
    }

    /** A reorg down to a block number: no section above it stays stored, except those a checkpoint covers. */
    method OnReorg(head: nat)
      requires Valid()
      modifies this`heads, this`count, this`stored, this`known, this`cascaded, this`given
      ensures Valid()
      ensures stored == Min(old(stored), Max(SectionOf(head, size), checkpointSections))
      ensures heads == HeadsUnder(old(heads), stored) && given == Under(old(given), stored)
      ensures StayBelow(old(heads), heads, head, size, checkpointSections)
      ensures known == Min(old(known), Reached(SectionOf(head, size), checkpointSections))
      ensures Start(known, size) <= head && (checkpointSections == 0 ==> known == old(known) || Start(known + 1, size) > head)
      ensures cascaded == if Start(Reached(SectionOf(head, size), checkpointSections), size) < old(cascaded)
                          then Start(Reached(SectionOf(head, size), checkpointSections), size) else old(cascaded)
    {
      hide *;
      ValidIs();
      ReorgNumbers(SectionOf(head, size), checkpointSections, stored, known);
      SectionsUnder(heads, runs, given, stored, size);
      var section := SectionOf(head, size);
      var newStored := section;
      if section < checkpointSections {
        section := 0;
      }
      if newStored < checkpointSections {
        newStored := checkpointSections;
      }
      if section < known {
        known := section;
      }
      if newStored < stored {
        NoGapBelow(newStored);
        Truncates(heads, runs, given, stored, size, newStored);
        SetValidSections(newStored);
        UnderPart(given, newStored);
        given := Under(given, newStored);
      }
      if Start(section, size) < cascaded {
        cascaded := Start(section, size);
      }
      StaysBelow(old(heads), heads, old(stored), stored, head, size, checkpointSections);
      KnownBelow(old(known), known, head, size, checkpointSections);
      ValidIs();
    }

    /** A new chain head: the sections it completes, with enough blocks on top, become known, once the chain has
        passed the checkpoint and matches it. */
    method OnExtended(head: nat, synced: Hash)
      requires Valid()
      modifies this`known
      ensures Valid() && known == Confirmed(old(known), head, synced)
      ensures known > old(known) ==> known >= checkpointSections && known * size + confirms <= head + 1
      ensures checkpointSections == 0 && head >= confirms ==> (known + 1) * size + confirms > head + 1
    {
      hide Sections, SectionOf, Working, Start;
      StartIs(size);
      if head >= confirms {
        var sections := SectionOf(head + 1 - confirms, size);
        SectionStarts(head + 1 - confirms, size);
        if sections < checkpointSections {
          sections := 0;
        }
        if sections > known {
          if known < checkpointSections && synced != checkpointHead {
            return;
          }
          known := sections;
        }
        if checkpointSections == 0 {
          StartsLater(SectionOf(head + 1 - confirms, size) + 1, known + 1, size);
        }
      }
    }

    /** How many sections are known after a new head: those with enough blocks on top, from the checkpoint on, unless the chain
        has just reached the checkpoint and does not match it. */
    ghost function Confirmed(before: nat, head: nat, synced: Hash): nat
      requires size > 0
      reads this
    {
      if head < confirms then before
      else
        var sections := Reached(SectionOf(head + 1 - confirms, size), checkpointSections);
        if sections <= before || (before < checkpointSections && synced != checkpointHead) then before else sections
    }

    /** From the checkpoint on, no section below the stored count lacks its head. */
    lemma NoGapBelow(n: nat)
      requires Valid() && checkpointSections <= n < stored
      ensures n > 0 ==> n - 1 in heads
    {
      if n > 0 {
        HeadsExactly(heads, runs, given, stored, size, if checkpointSections == 0 then 0 else checkpointSections - 1,
                     n - 1);
      }
    }

    /** A checkpoint that is not below the one known. */
    method OnCheckpoint(section: nat, shead: Hash)
      requires Valid() && checkpointSections <= section + 1 && shead != NO_HASH
      modifies this`heads, this`count, this`stored, this`checkpointSections, this`checkpointHead, this`given
      ensures Valid() && checkpointSections == section + 1 && checkpointHead == shead
      ensures stored == Max(old(stored), section + 1)
      ensures section < old(stored) ==> heads == old(heads) && given == old(given)
      ensures section >= old(stored) ==> heads == old(heads)[section := shead] && given == old(given) + {section}
    {
      hide Sections;
      checkpointSections, checkpointHead := section + 1, shead;
      if section < stored {
        return;
      }
      Gives(heads, runs, given, stored, size, section, shead);
      SectionsUnder(heads[section := shead], runs, given + {section}, section + 1, size);
      heads := heads[section := shead];
      SetValidSections(section + 1);
      given := given + {section};
    }

    /** The update loop takes the next section and releases the lock. */
    method BeginSection()
      requires Valid()
      modifies this`job
      ensures Valid()
      ensures old(job.Idle?) && known > stored ==> job == Processing(stored, HeadBefore(heads, stored), [])
      ensures !(old(job.Idle?) && known > stored) ==> job == old(job)
    {
      if job.Idle? && known > stored {
        job := Processing(stored, HeadBefore(heads, stored), []);
      }
    }

    /** The backend could not be reset: the whole index is invalidated. */
    method OnResetFailure()
      requires Valid()
      modifies this`heads, this`count, this`stored, this`job, this`given
      ensures Valid()
      ensures old(job.Processing? && job.done == []) ==> stored == 0 && heads == map[] && job == Failed
      ensures !old(job.Processing? && job.done == []) ==> unchanged(this)
    {
      hide Sections;
      if job.Processing? && job.done == [] {
        SectionsUnder(heads, runs, given, stored, size);
        Truncates(heads, runs, given, stored, size, 0);
        SetValidSections(0);
        given := Under(given, 0);
        job := Failed;
      }
    }

    /** One header of the section is read and processed: it must be found and follow the last one. */
    method ProcessNext(canonical: Hash, found: Option<Header>)
      requires Valid()
      modifies this`job
      ensures Valid()
      ensures job ==
        if !(old(job.Processing?) && |old(job).done| < size) then old(job)
        else if Next(old(job), size, canonical, found) then old(job).(done := old(job).done + [found.value])
        else Failed
    {
      if job.Processing? && |job.done| < size {
        if !Next(job, size, canonical, found) {
          job := Failed;
        } else {
          ChainsOn(job.done, job.oldHead, Start(job.section, size), found.value);
          job := job.(done := job.done + [found.value]);
        }
      }
    }

    /** Processing failed in some other way. */
    method Fail()
      requires Valid()
      modifies this`job
      ensures Valid() && job == if old(job.Processing?) then Failed else old(job)
    {
      if job.Processing? {
        job := Failed;
      }
    }

    /** Back under the lock: the section is marked completed if it was processed and still follows the head it
        started from. */
    method FinishSection()
      requires Valid()
      modifies this`heads, this`count, this`stored, this`known, this`cascaded, this`job, this`given, this`runs
      ensures Valid()
      ensures job == if old(job.Failed?) || (old(job.Processing?) && |old(job).done| == size) then Idle else old(job)
      ensures var j := old(job);
        var complete := j.Processing? && |j.done| == size;
        if complete && j.oldHead == HeadBefore(old(heads), j.section) then
          && stored == j.section + 1 && heads == HeadsUnder(old(heads), j.section)[j.section := LastOf(j.done, j.oldHead)]
          && given == Under(old(given), j.section) && runs == old(runs)[j.section := j.done] && known == old(known)
          && cascaded == Start(stored, size) - 1
        else
          && cascaded == old(cascaded)
          && stored == old(stored) && heads == old(heads) && given == old(given) && runs == old(runs)
          && known == if complete || j.Failed? then stored else old(known)
    {
      hide Sections, Chained, Start;
      if job.Processing? && |job.done| == size {
        var section, newHead := job.section, LastOf(job.done, job.oldHead);
        if job.oldHead == HeadBefore(heads, section) {
          LastStored(job.done, job.oldHead, Start(section, size));
          Appends(heads, runs, given, stored, size, section, newHead, job.done);
          SectionsUnder(heads, runs, given, stored, size);
          SetBelow(heads, section, newHead, stored);
          heads := heads[section := newHead];
          SetValidSections(section + 1);
          given := Under(given, section);
          runs := runs[section := job.done];
          cascaded := Start(stored, size) - 1;
        } else {
          known := stored;
        }
        job := Idle;
      } else if job.Failed? {
        known := stored;
        job := Idle;
      }
    }

    /** The node restarts: the count is loaded from the database and the checkpoint is added again. */
    method OnRestart()
      requires Valid()
      modifies this
      ensures Valid() && checkpointSections == old(checkpointSections) && known == 0 && cascaded == 0 && job == Idle
      ensures stored == Max(old(stored), checkpointSections)
      ensures old(stored) >= checkpointSections ==> heads == old(heads)
    {
      stored, known, cascaded, job := count, 0, 0, Idle;
      if checkpointSections > 0 {
        OnCheckpoint(checkpointSections - 1, checkpointHead);
      }
    }

    /** From the checkpoint on every section below the stored count has its head. Without a checkpoint these are all
        the heads, and the sections together are one linked chain of exactly the headers from number zero on. */
    lemma WholeIndex()
      requires Valid()
      ensures forall i: nat | checkpointSections <= i + 1 && i < stored :: i in heads
      ensures checkpointSections == 0 ==> forall i: nat :: i in heads <==> i < stored
      ensures checkpointSections == 0 && stored > 0 ==>
        && (forall i: nat | i < stored :: i in runs)
        && |Joined(runs, 0, stored)| == Start(stored, size) && Chained(Joined(runs, 0, stored), NO_HASH, 0)
        && LastOf(Joined(runs, 0, stored), NO_HASH) == HeadOf(heads, stored - 1)
    {
      hide Chained, Joined, Start, LastOf;
      forall i: nat | checkpointSections <= i + 1 && i < stored ensures i in heads {
        HeadsExactly(heads, runs, given, stored, size, if checkpointSections == 0 then 0 else checkpointSections - 1,
                     i);
      }
      if checkpointSections == 0 && stored > 0 {
        forall i: nat | i < stored ensures i in runs && Linked(heads, runs, size, i) {
          assert i in heads && i !in given;
        }
        NextStart(0, size);
        SectionsJoin(heads, runs, size, 0, stored);
      }
    }

    /** Every interleaving of the steps keeps the index consistent: from the checkpoint on every section below the stored count
        has its head; and if there never was a checkpoint these are all the heads, and the sections together are one linked
        chain of exactly the headers from number zero on. */
    method Run(steps: seq<Step>)
      requires Valid()
      modifies this
      ensures Valid()
      ensures forall i: nat | checkpointSections <= i + 1 && i < stored :: i in heads
      ensures old(checkpointSections) == 0 && (forall i | 0 <= i < |steps| :: !steps[i].AddCheckpoint?) ==>
        && checkpointSections == 0 && (forall i: nat :: i in heads <==> i < stored)
        && (stored > 0 ==>
              && (forall i: nat | i < stored :: i in runs)
              && |Joined(runs, 0, stored)| == Start(stored, size) && Chained(Joined(runs, 0, stored), NO_HASH, 0)
              && LastOf(Joined(runs, 0, stored), NO_HASH) == HeadOf(heads, stored - 1))
    {
      for i := 0 to |steps|
        invariant Valid()
        invariant old(checkpointSections) == 0 && (forall j | 0 <= j < i :: !steps[j].AddCheckpoint?) ==> checkpointSections == 0
      {
        match steps[i]
        case NewHead(head, reorg, synced) =>
          if reorg {
            OnReorg(head);
          } else {
            OnExtended(head, synced);
          }
        case AddCheckpoint(section, shead) =>
          if checkpointSections <= section + 1 && shead != NO_HASH {
            OnCheckpoint(section, shead);
          }
        case Begin => BeginSection();
        case ResetFails => OnResetFailure();
        case ReadHeader(canonical, header) => ProcessNext(canonical, header);
        case ProcessFails => Fail();
        case Finish => FinishSection();
        case Restart => OnRestart();
      }
      WholeIndex();
    }
  }
}
