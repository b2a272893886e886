/** The timer queue (src/timer/TimerQueue.cc, Timer.cc): an ordered set of (expiration, timer)
    entries and the timer descriptor armed for the earliest. The clock is a parameter of each call. */
module TimerQueues {
  import opened Text

  const MICROSECONDS_PER_SECOND := 1000 * 1000
  const UINTPTR_MAX: nat := 0xFFFF_FFFF_FFFF_FFFF

  class Timer {
    /** Where the object lives; the set breaks ties by it. */
    const address: nat
    const interval: real
    var expiration: int

    constructor (address: nat, when: int, interval: real)
      ensures this.address == address && this.interval == interval && expiration == when
    {
      this.address, this.interval, expiration := address, interval, when;
    }

    predicate Repeat() {
      interval > 0.0
    }

    /** The new expiration of a repeating timer. */
    function After(now: int): int {
      now + (interval * MICROSECONDS_PER_SECOND as real).Floor
    }

    method Restart(now: int)
      modifies this
      ensures expiration == if Repeat() then After(now) else 0
    {
      if Repeat() {
        expiration := After(now);
      } else {
        expiration := 0;
      }
    }
  }

  /** A timer with an interval is restarted that many microseconds ahead, less a fraction of one: later
      than now exactly if its interval is a microsecond or more; with a shorter one it is due at once. */
  lemma RestartedLater(timer: Timer, now: int)
    ensures timer.Repeat() <==> timer.interval > 0.0
    ensures timer.interval * 1000000.0 - 1.0 < (timer.After(now) - now) as real <= timer.interval * 1000000.0
    ensures timer.Repeat() ==> timer.After(now) >= now
    ensures timer.Repeat() ==> (timer.After(now) > now <==> timer.interval >= 0.000001)
  {
    var scaled := timer.interval * 1000000.0;
    assert scaled >= 1.0 <==> timer.interval >= 0.000001;
  }

  datatype Entry = Entry(when: int, timer: Timer)

  /** The order of `std::pair`. */
  predicate Less(a: Entry, when: int, address: nat) {
    a.when < when || (a.when == when && a.timer.address < address)
  }

  ghost predicate Sorted(timers: seq<Entry>) {
    forall i, j :: 0 <= i < j < |timers| ==> Less(timers[i], timers[j].when, timers[j].timer.address)
  }

  /** Objects have different addresses, none the largest. */
  ghost predicate Distinct(timers: seq<Entry>) {
    && (forall i, j :: 0 <= i < j < |timers| ==> timers[i].timer.address != timers[j].timer.address)
    && (forall i :: 0 <= i < |timers| ==> timers[i].timer.address < UINTPTR_MAX)
  }

  ghost predicate Absent(timers: seq<Entry>, address: nat) {
    forall i :: 0 <= i < |timers| ==> timers[i].timer.address != address
  }

  /** First position whose entry is not less than the key. */
  method LowerBound(timers: seq<Entry>, when: int, address: nat) returns (k: nat)
    ensures k <= |timers|
    ensures forall i :: 0 <= i < k ==> Less(timers[i], when, address)
    ensures k < |timers| ==> !Less(timers[k], when, address)
  {
    k := 0;
    while k < |timers| && Less(timers[k], when, address)
      invariant k <= |timers|
      invariant forall i :: 0 <= i < k ==> Less(timers[i], when, address)
    {
      k := k + 1;
    }
  }

  function Inserted(timers: seq<Entry>, e: Entry, k: nat): seq<Entry>
    requires k <= |timers|
  {
    timers[..k] + [e] + timers[k..]
  }

  lemma InsertedAt(timers: seq<Entry>, e: Entry, k: nat, j: nat)
    requires k <= |timers| && j <= |timers|
    ensures |Inserted(timers, e, k)| == |timers| + 1
    ensures Inserted(timers, e, k)[j] == if j < k then timers[j] else if j == k then e else timers[j - 1]
  {
  }

  lemma InsertedElements(timers: seq<Entry>, e: Entry, k: nat)
    requires k <= |timers|
    ensures multiset(Inserted(timers, e, k)) == multiset(timers) + multiset{e}
  {
    assert timers == timers[..k] + timers[k..];
  }

  lemma InsertedSorted(timers: seq<Entry>, e: Entry, k: nat)
    requires Sorted(timers) && Distinct(timers) && Absent(timers, e.timer.address) && e.timer.address < UINTPTR_MAX
    requires k <= |timers|
    requires forall i :: 0 <= i < k ==> Less(timers[i], e.when, e.timer.address)
    requires k < |timers| ==> !Less(timers[k], e.when, e.timer.address)
    ensures Sorted(Inserted(timers, e, k)) && Distinct(Inserted(timers, e, k))
  {
    hide Inserted;
    var more := Inserted(timers, e, k);
    InsertedAt(timers, e, k, 0);
    forall i, j | 0 <= i < j < |more|
      ensures Less(more[i], more[j].when, more[j].timer.address) && more[i].timer.address != more[j].timer.address
    {
      InsertedAt(timers, e, k, i);
      InsertedAt(timers, e, k, j);
      assert i == k ==> Less(timers[k], timers[j - 1].when, timers[j - 1].timer.address) || j - 1 == k;
    }
    forall i | 0 <= i < |more| ensures more[i].timer.address < UINTPTR_MAX {
      InsertedAt(timers, e, k, i);
    }
  }

  lemma InsertedMembers(timers: seq<Entry>, e: Entry, k: nat)
    requires k <= |timers|
    ensures var more := Inserted(timers, e, k);
            forall i :: 0 <= i < |more| ==> more[i] == e || exists j :: 0 <= j < |timers| && timers[j] == more[i]
  {
    hide Inserted;
    InsertedAt(timers, e, k, 0);
    forall i | 0 <= i <= |timers| && i != k
      ensures exists j :: 0 <= j < |timers| && timers[j] == Inserted(timers, e, k)[i]
    {
      InsertedAt(timers, e, k, i);
      assert timers[if i < k then i else i - 1] == Inserted(timers, e, k)[i];
    }
    InsertedAt(timers, e, k, k);
  }

  /** The new entry comes first exactly if it is the earliest, or is due together with the earliest
      and has the smaller address. */
  lemma InsertedFirst(timers: seq<Entry>, e: Entry, k: nat)
    requires k <= |timers|
    requires forall i :: 0 <= i < k ==> Less(timers[i], e.when, e.timer.address)
    requires k < |timers| ==> !Less(timers[k], e.when, e.timer.address)
    ensures var more := Inserted(timers, e, k);
            more != [] && more[0].when == if timers == [] || e.when < timers[0].when then e.when else timers[0].when
  {
    InsertedAt(timers, e, k, 0);
  }

  /** The sentry (now, UINTPTR_MAX) cuts between the entries due and those to come. */
  lemma SentrySplits(timers: seq<Entry>, now: int, k: nat)
    requires Sorted(timers) && Distinct(timers) && k <= |timers|
    requires forall i :: 0 <= i < k ==> Less(timers[i], now, UINTPTR_MAX)
    requires k < |timers| ==> !Less(timers[k], now, UINTPTR_MAX)
    ensures forall i :: 0 <= i < |timers| ==> (timers[i].when <= now <==> i < k)
  {
    forall i | k <= i < |timers| ensures timers[i].when > now {
      assert i == k || Less(timers[k], timers[i].when, timers[i].timer.address);
    }
  }

  lemma FirstIsLeast(a: seq<Entry>, e: Entry)
    requires Sorted(a) && e in multiset(a)
    ensures e == a[0] || Less(a[0], e.when, e.timer.address)
  {
    var i :| 0 <= i < |a| && a[i] == e;
  }

  lemma WithoutFirst(a: seq<Entry>)
    requires a != []
    ensures a[0] in multiset(a) && multiset(a[1..]) == multiset(a) - multiset{a[0]}
    ensures Sorted(a) ==> Sorted(a[1..])
  {
    assert a == [a[0]] + a[1..];
  }

  lemma OneIsFirst(d: Entry, e: Entry)
    requires e == d || Less(d, e.when, e.timer.address)
    requires d == e || Less(e, d.when, d.timer.address)
    ensures d == e
  {
  }

  lemma SameSize(a: seq<Entry>, b: seq<Entry>)
    requires multiset(a) == multiset(b)
    ensures |a| == |b|
  {
    assert |multiset(a)| == |multiset(b)|;
  }

  /** Only one ordered list has given entries. */
  lemma {:induction false} SortedIsUnique(a: seq<Entry>, b: seq<Entry>)
    requires Sorted(a) && Sorted(b) && multiset(a) == multiset(b)
    ensures a == b
  {
    hide Sorted, Less;
    SameSize(a, b);
    if a != [] {
      assert a[0] in multiset(a) && b[0] in multiset(b);
      FirstIsLeast(a, b[0]);
      FirstIsLeast(b, a[0]);
      WithoutFirst(a);
      WithoutFirst(b);
      OneIsFirst(a[0], b[0]);
      SortedIsUnique(a[1..], b[1..]);
      assert a == [a[0]] + a[1..] && b == [b[0]] + b[1..];
    }
  }

  /** The entries that the timers among `expired` that repeat get back, the i-th restarted at
      `clock[i]`. */
  function Restarted(expired: seq<Entry>, clock: seq<int>): seq<Entry>
    requires |expired| <= |clock|
  {
    if expired == [] then []
    else
      var n := |expired| - 1;
      var rest, timer := Restarted(expired[..n], clock), expired[n].timer;
      if timer.Repeat() then rest + [Entry(timer.After(clock[n]), timer)] else rest
  }

  /** Exactly the timers with an interval come back, each due its interval after it was restarted. */
  lemma {:induction false} RestartedMeaning(expired: seq<Entry>, clock: seq<int>, e: Entry)
    requires |expired| <= |clock|
    ensures e in Restarted(expired, clock) <==>
            exists i ::
              && 0 <= i < |expired| && e.timer == expired[i].timer && e.timer.interval > 0.0
              && e.timer.interval * 1000000.0 - 1.0 < (e.when - clock[i]) as real <= e.timer.interval * 1000000.0
    decreases |expired|
  {
    if expired != [] {
      var n := |expired| - 1;
      RestartedMeaning(expired[..n], clock, e);
      RestartedLater(expired[n].timer, clock[n]);
      assert forall i :: 0 <= i < n ==> expired[..n][i] == expired[i];
      hide Timer.Repeat, Timer.After;
    }
  }

  /** The first entry is due no later than any other; entries due at the same time are ordered by
      address. */
  lemma EarliestFirst(timers: seq<Entry>, i: nat, j: nat)
    requires Sorted(timers) && i < j < |timers|
    ensures timers[i].when <= timers[j].when
    ensures timers[i].when == timers[j].when ==> timers[i].timer.address < timers[j].timer.address
  {
    assert Less(timers[i], timers[j].when, timers[j].timer.address);
  }

  /** What comes back of a timer that has run. */
  function Back(timer: Timer, now: int): multiset<Entry> {
    if timer.Repeat() then multiset{Entry(timer.After(now), timer)} else multiset{}
  }

  // ---------- timers added by callbacks ----------

  /** What the callbacks from the i-th on add. */
  function Left(batches: seq<seq<Entry>>, i: nat): seq<Entry>
    requires i <= |batches|
  {
    Flat(batches[i..])
  }

  lemma LeftFirst(batches: seq<seq<Entry>>, i: nat)
    requires i < |batches|
    ensures Left(batches, i) == batches[i] + Left(batches, i + 1)
    ensures multiset(Left(batches, i)) == multiset(batches[i]) + multiset(Left(batches, i + 1))
  {
    assert batches[i..][1..] == batches[i + 1..];
  }

  lemma LeftEnds(batches: seq<seq<Entry>>)
    ensures Left(batches, 0) == Flat(batches) && Left(batches, |batches|) == []
  {
    assert batches[0..] == batches;
  }

  lemma Regroup(queued: multiset<Entry>, batch: multiset<Entry>, rest: multiset<Entry>)
    ensures queued + (batch + rest) == (queued + batch) + rest
  {
  }

  lemma {:induction false} FlatSplit(batches: seq<seq<Entry>>, n: nat)
    requires n <= |batches|
    ensures Flat(batches) == Flat(batches[..n]) + Flat(batches[n..])
  {
    if n == 0 {
      assert batches[0..] == batches && Flat(batches[..0]) == [];
    } else {
      FlatSplit(batches[1..], n - 1);
      assert batches[..n][1..] == batches[1..][..n - 1] && batches[1..][n - 1..] == batches[n..];
      assert Flat(batches) == batches[0] + (Flat(batches[..n][1..]) + Flat(batches[n..]));
    }
  }

  /** New timers: different from each other, from those in the queue and from those that are running,
      which are not in the queue either. */
  ghost predicate New(timers: seq<Entry>, expired: seq<Entry>, later: seq<Entry>) {
    && Distinct(later)
    && (forall j :: 0 <= j < |later| ==> Absent(timers, later[j].timer.address)
                                         && Absent(expired, later[j].timer.address))
    && (forall i :: 0 <= i < |expired| ==> Absent(timers, expired[i].timer.address))
  }

  ghost predicate Keyed(entries: seq<Entry>)
    reads set i | 0 <= i < |entries| :: entries[i].timer
  {
    forall i :: 0 <= i < |entries| ==> entries[i].when == entries[i].timer.expiration
  }

  /** After the first of the new timers is in the queue, the others are still new. */
  lemma StillNew(before: seq<Entry>, after: seq<Entry>, expired: seq<Entry>, later: seq<Entry>)
    requires later != [] && New(before, expired, later)
    requires forall a: nat :: a != later[0].timer.address && Absent(before, a) ==> Absent(after, a)
    ensures New(after, expired, later[1..])
  {
    hide Absent;
    var rest := later[1..];
    forall j | 0 <= j < |rest|
      ensures Absent(after, rest[j].timer.address) && Absent(expired, rest[j].timer.address)
    {
      assert rest[j] == later[j + 1] && later[0].timer.address != later[j + 1].timer.address;
    }
    assert forall i :: 0 <= i < |expired| ==> expired[i].timer.address != later[0].timer.address by {
      DifferentFromAll(expired, later[0].timer.address);
    }
  }

  lemma DifferentFromAll(entries: seq<Entry>, address: nat)
    requires Absent(entries, address)
    ensures forall i :: 0 <= i < |entries| ==> entries[i].timer.address != address
  {
  }

  lemma FewerNew(timers: seq<Entry>, expired: seq<Entry>, some: seq<Entry>, others: seq<Entry>)
    requires New(timers, expired, some + others)
    ensures New(timers, expired, some)
  {
    var all := some + others;
    assert forall i :: 0 <= i < |some| ==> all[i] == some[i];
  }

  /** The timers due move out of the queue; what was new stays new. */
  lemma NewBeside(timers: seq<Entry>, k: nat, later: seq<Entry>)
    requires Distinct(timers) && k <= |timers| && New(timers, [], later)
    ensures New(timers[k..], timers[..k], later)
  {
    Apartness(timers, k);
  }

  // ---------- arming the descriptor ----------

  /** Seconds and nanoseconds for `timerfd_settime`, at least 100 microseconds ahead. */
  function Delay(expiration: int, now: int): (int, int) {
    var ahead := if expiration - now < 100 then 100 else expiration - now;
    (ahead / MICROSECONDS_PER_SECOND, ahead % MICROSECONDS_PER_SECOND * 1000)
  }

  /** A valid time span that is never zero, which would disarm the descriptor, and never short of
      the expiration. */
  lemma DelayArms(expiration: int, now: int)
    ensures var (seconds, nanoseconds) := Delay(expiration, now);
            && 0 <= seconds && 0 <= nanoseconds < 1000000000
            && seconds * 1000000000 + nanoseconds >= 100000
            && now * 1000 + seconds * 1000000000 + nanoseconds >= expiration * 1000
            && (expiration - now >= 100 ==>
                  now * 1000 + seconds * 1000000000 + nanoseconds == expiration * 1000)
            && (expiration - now < 100 ==> seconds * 1000000000 + nanoseconds == 100000)
  {
  }

  // ---------- the object ----------

  class TimerQueue {
    var timers: seq<Entry>
    /** What the kernel's timer is set to; it fires once. */
    var armed: Option<int>
    /** The callbacks run so far. */
    ghost var ran: seq<Timer>

    ghost predicate Valid()
      reads this, set i | 0 <= i < |timers| :: timers[i].timer
    {
      && Sorted(timers) && Distinct(timers)
      && forall i :: 0 <= i < |timers| ==> timers[i].when == timers[i].timer.expiration
    }

    constructor ()
      ensures Valid() && timers == [] && armed == None && ran == []
    {
      timers, armed, ran := [], None, [];
    }

    method ResetTimerfd(expiration: int)
      modifies this`armed
      ensures armed == Some(expiration)
    {
      armed := Some(expiration);
    }

    method Insert(timer: Timer) returns (earliestChanged: bool)
      requires Valid() && Absent(timers, timer.address) && timer.address < UINTPTR_MAX
      modifies this`timers
      ensures Valid() && timers != []
      ensures multiset(timers) == multiset(old(timers)) + multiset{Entry(timer.expiration, timer)}
      ensures earliestChanged <==> old(timers) == [] || timer.expiration < old(timers)[0].when
      ensures timers[0].when == if earliestChanged then timer.expiration else old(timers)[0].when
      ensures forall a: nat :: a != timer.address && Absent(old(timers), a) ==> Absent(timers, a)
    {
      hide Inserted, Sorted, Distinct, Less;
      var when := timer.expiration;
      earliestChanged := timers == [] || when < timers[0].when;
      var k := LowerBound(timers, when, timer.address);
      InsertedElements(timers, Entry(when, timer), k);
      InsertedSorted(timers, Entry(when, timer), k);
      InsertedMembers(timers, Entry(when, timer), k);
      InsertedFirst(timers, Entry(when, timer), k);
      timers := Inserted(timers, Entry(when, timer), k);
    }

    /** After an addition the descriptor is armed for the earliest timer if it was before. */
    method AddTimerInLoop(timer: Timer)
      requires Valid() && Absent(timers, timer.address) && timer.address < UINTPTR_MAX
      modifies this`timers, this`armed
      ensures Valid()
      ensures multiset(timers) == multiset(old(timers)) + multiset{Entry(timer.expiration, timer)}
      ensures timers != []
      ensures forall a: nat :: a != timer.address && Absent(old(timers), a) ==> Absent(timers, a)
      ensures old(timers) == [] || old(armed) == Some(old(timers)[0].when) ==> armed == Some(timers[0].when)
    {
      var earliestChanged := Insert(timer);
      if earliestChanged {
        ResetTimerfd(timer.expiration);
      }
    }

    method GetExpired(now: int) returns (expired: seq<Entry>)
      requires Valid()
      modifies this`timers
      ensures Valid() && expired + timers == old(timers)
      ensures forall i :: 0 <= i < |expired| ==> expired[i].when <= now
      ensures forall i :: 0 <= i < |timers| ==> timers[i].when > now
    {
      var k := LowerBound(timers, now, UINTPTR_MAX);
      SentrySplits(timers, now, k);
      expired := timers[..k];
      timers := timers[k..];
    }

    /** The callback of a timer adds timers; `later` are those other callbacks add afterwards. */
    method AddAll(expired: seq<Entry>, batch: seq<Entry>, ghost later: seq<Entry>)
      requires Valid() && New(timers, expired, batch + later) && Keyed(batch)
      requires timers == [] ==> armed == None
      modifies this`timers, this`armed
      ensures Valid() && New(timers, expired, later)
      ensures multiset(timers) == multiset(old(timers)) + multiset(batch)
      ensures timers == [] ==> armed == None
    {
      hide Valid, New, Absent;
      assert batch[0..] == batch;
      for j := 0 to |batch|
        invariant Valid() && New(timers, expired, batch[j..] + later)
        invariant multiset(timers) == multiset(old(timers)) + multiset(batch[..j])
        invariant timers == [] ==> armed == None
      {
        AddOne(expired, batch[j], batch[j..] + later);
        assert (batch[j..] + later)[1..] == batch[j + 1..] + later;
        assert batch[..j + 1] == batch[..j] + [batch[j]];
      }
      assert batch[|batch|..] + later == later && batch[..|batch|] == batch;
    }

    method AddOne(expired: seq<Entry>, e: Entry, ghost later: seq<Entry>)
      requires Valid() && later != [] && later[0] == e && New(timers, expired, later)
      requires e.when == e.timer.expiration
      modifies this`timers, this`armed
      ensures Valid() && New(timers, expired, later[1..])
      ensures multiset(timers) == multiset(old(timers)) + multiset{e} && timers != []
    {
      ghost var before := timers;
      AddTimerInLoop(e.timer);
      hide Absent;
      StillNew(before, timers, expired, later);
    }

    method RunOne(expired: seq<Entry>, added: seq<seq<Entry>>, i: nat)
      requires Valid() && i < |added| == |expired| && Keyed(added[i])
      requires New(timers, expired, Left(added, i))
      requires timers == [] ==> armed == None
      modifies this`timers, this`armed, this`ran
      ensures Valid() && New(timers, expired, Left(added, i + 1)) && ran == old(ran) + [expired[i].timer]
      ensures multiset(timers) + multiset(Left(added, i + 1)) == multiset(old(timers)) + multiset(Left(added, i))
      ensures timers == [] ==> armed == None
    {
      hide Left, New, Valid;
      LeftFirst(added, i);
      Regroup(multiset(timers), multiset(added[i]), multiset(Left(added, i + 1)));
      CallBack(expired[i].timer);
      AddAll(expired, added[i], Left(added, i + 1));
    }

    method CallBack(timer: Timer)
      requires Valid()
      modifies this`ran
      ensures Valid() && ran == old(ran) + [timer]
    {
      ran := ran + [timer];
    }

    /** The callbacks of the timers due, in order; the i-th one adds the timers `added[i]`. */
    method RunExpired(expired: seq<Entry>, added: seq<seq<Entry>>)
      requires Valid() && |expired| == |added| && New(timers, expired, Flat(added))
      requires forall i :: 0 <= i < |added| ==> Keyed(added[i])
      requires timers == [] ==> armed == None
      modifies this`timers, this`armed, this`ran
      ensures Valid() && New(timers, expired, []) && ran == old(ran) + Timers(expired)
      ensures multiset(timers) == multiset(old(timers)) + multiset(Flat(added))
      ensures expired == [] ==> armed == old(armed)
      ensures timers == [] ==> armed == None
    {
      NothingYet(expired);
      LeftEnds(added);
      hide Flat, Left, New, Valid, Timers;
      ghost var goal := multiset(timers) + multiset(Flat(added));
      for i := 0 to |added|
        invariant Valid() && ran == old(ran) + Timers(expired[..i])
        invariant New(timers, expired, Left(added, i))
        invariant multiset(timers) + multiset(Left(added, i)) == goal
        invariant i == 0 ==> armed == old(armed)
        invariant timers == [] ==> armed == None
      {
        TimersGrow(expired, i);
        RunOne(expired, added, i);
      }
      assert expired[..|added|] == expired;
      assert multiset(timers) + multiset([]) == multiset(timers);
    }

    /** One firing of the descriptor. Every timer due has run once, in time order; the queue holds the
        timers not yet due, those the callbacks added, and exactly the repeating ones of those that
        ran, later by their interval; the descriptor is armed, for the earliest, exactly when
        something was due and something is left. */
    method HandleRead(now: int, clock: seq<int>, added: seq<seq<Entry>>)
      requires Valid() && |timers| <= |clock| && |timers| <= |added| && New(timers, [], Flat(added))
      requires forall i :: 0 <= i < |added| ==> Keyed(added[i])
      modifies this, set i | 0 <= i < |timers| :: timers[i].timer
      ensures Valid()
      ensures exists k: nat :: k <= |old(timers)| && Fired(old(timers), now, k, clock, added, timers)
                && ran == old(ran) + Timers(old(timers)[..k])
                && armed == if k > 0 && timers != [] then Some(timers[0].when) else None
    {
      hide Timers, Restarted, Flat;
      armed := None;
      ghost var before := timers;
      var expired := GetExpired(now);
      var k := |expired|;
      assert before[..k] == expired && before[k..] == timers;
      DueAre(before, expired, timers, now);
      hide Due;
      FlatSplit(added, k);
      FewerNew(before, [], Flat(added[..k]), Flat(added[k..]));
      NewBeside(before, k, Flat(added[..k]));
      Apartness(before, k);
      hide Valid, New, Sorted, Distinct, Flat, Restarted;
      forall i | 0 <= i < k ensures Keyed(added[..k][i]) {
        assert Keyed(added[i]);
      }
      RunAndReset(expired, clock, added[..k]);
      assert Fired(before, now, k, clock, added, timers);
    }

    /** All callbacks, then the queue put in order again. */
    method RunAndReset(expired: seq<Entry>, clock: seq<int>, added: seq<seq<Entry>>)
      requires Valid() && Distinct(expired) && |expired| <= |clock| && armed == None
      requires |expired| == |added| && New(timers, expired, Flat(added))
      requires forall i :: 0 <= i < |added| ==> Keyed(added[i])
      modifies this, set i | 0 <= i < |expired| :: expired[i].timer
      ensures Valid() && ran == old(ran) + Timers(expired)
      ensures multiset(timers)
           == multiset(old(timers)) + multiset(Flat(added)) + multiset(Restarted(expired, clock))
      ensures armed == if expired != [] && timers != [] then Some(timers[0].when) else None
    {
      hide Valid, Sorted, Distinct, Flat, Restarted, Keyed, Absent;
      RunExpired(expired, added);
      Reset(expired, clock);
    }

    /** A timer that has run: a repeating one is restarted and comes back. */
    method Requeue(timer: Timer, now: int)
      requires Valid() && Absent(timers, timer.address) && timer.address < UINTPTR_MAX
      modifies this`timers, timer
      ensures Valid()
      ensures multiset(timers) == multiset(old(timers)) + Back(timer, now)
      ensures forall a: nat :: a != timer.address && Absent(old(timers), a) ==> Absent(timers, a)
      ensures old(timers) != [] ==> timers != []
    {
      if timer.Repeat() {
        timer.Restart(now);
        var changed := Insert(timer);
      }
    }

    /** One round of the loop in `reset`. */
    method ResetOne(timer: Timer, now: int)
      requires Valid() && Absent(timers, timer.address) && timer.address < UINTPTR_MAX
      modifies this`timers, this`armed, timer
      ensures Valid()
      ensures multiset(timers) == multiset(old(timers)) + Back(timer, now)
      ensures forall a: nat :: a != timer.address && Absent(old(timers), a) ==> Absent(timers, a)
      ensures armed == if timers != [] then Some(timers[0].when) else old(armed)
      ensures old(timers) != [] ==> timers != []
    {
      Requeue(timer, now);
      if timers != [] {
        ResetTimerfd(timers[0].timer.expiration);
      }
    }

    method Reset(expired: seq<Entry>, clock: seq<int>)
      requires Valid() && Distinct(expired) && |expired| <= |clock| && (timers == [] ==> armed == None)
      requires forall i :: 0 <= i < |expired| ==> Absent(timers, expired[i].timer.address)
      modifies this`timers, this`armed, set i | 0 <= i < |expired| :: expired[i].timer
      ensures Valid()
      ensures multiset(timers) == multiset(old(timers)) + multiset(Restarted(expired, clock))
      ensures armed == if expired == [] then old(armed) else if timers != [] then Some(timers[0].when) else None
    {
      ghost var start := multiset(timers);
      NoneRestarted(clock);
      assert expired[..0] == [];
      hide Valid, Absent, Sorted, Distinct, Restarted, Back;
      for i := 0 to |expired|
        invariant Valid()
        invariant forall j :: i <= j < |expired| ==> Absent(timers, expired[j].timer.address)
        invariant multiset(timers) == start + multiset(Restarted(expired[..i], clock))
        invariant armed == if i == 0 then old(armed) else if timers != [] then Some(timers[0].when) else None
        invariant timers == [] ==> armed == None
      {
        RestartedGrows(expired, clock, i);
        OthersDiffer(expired, i);
        Regroup(start, multiset(Restarted(expired[..i], clock)), Back(expired[i].timer, clock[i]));
        ResetOne(expired[i].timer, clock[i]);
      }
      assert expired[..|expired|] == expired;
    }
  }

  /** The queue before and after a firing at which the first `k` timers were due. */
  ghost predicate Fired(before: seq<Entry>, now: int, k: nat, clock: seq<int>, added: seq<seq<Entry>>, after: seq<Entry>)
    requires k <= |before| && k <= |clock| && k <= |added|
  {
    && Due(before, now, k)
    && multiset(after) == multiset(before[k..]) + multiset(Flat(added[..k])) + multiset(Restarted(before[..k], clock))
  }

  ghost predicate Due(timers: seq<Entry>, now: int, k: nat) {
    forall i :: 0 <= i < |timers| ==> (timers[i].when <= now <==> i < k)
  }

  lemma DueAre(before: seq<Entry>, expired: seq<Entry>, rest: seq<Entry>, now: int)
    requires before == expired + rest
    requires forall i :: 0 <= i < |expired| ==> expired[i].when <= now
    requires forall i :: 0 <= i < |rest| ==> rest[i].when > now
    ensures Due(before, now, |expired|)
  {
  }

  function Timers(entries: seq<Entry>): seq<Timer> {
    seq(|entries|, i requires 0 <= i < |entries| => entries[i].timer)
  }

  lemma NothingYet(entries: seq<Entry>)
    ensures Timers(entries[..0]) == [] && Flat<Entry>([]) == []
  {
  }

  lemma TimersGrow(entries: seq<Entry>, i: nat)
    requires i < |entries|
    ensures Timers(entries[..i + 1]) == Timers(entries[..i]) + [entries[i].timer]
  {
  }

  lemma NoneRestarted(clock: seq<int>)
    ensures Restarted([], clock) == []
  {
  }

  lemma OthersDiffer(expired: seq<Entry>, i: nat)
    requires Distinct(expired) && i < |expired|
    ensures expired[i].timer.address < UINTPTR_MAX
    ensures forall j :: i < j < |expired| ==> expired[j].timer.address != expired[i].timer.address
  {
  }

  lemma RestartedGrows(expired: seq<Entry>, clock: seq<int>, i: nat)
    requires i < |expired| <= |clock|
    ensures var timer := expired[i].timer;
            multiset(Restarted(expired[..i + 1], clock))
            == multiset(Restarted(expired[..i], clock))
               + Back(timer, clock[i])
  {
    hide Timer.Repeat, Timer.After;
    assert expired[..i + 1][..i] == expired[..i];
  }

  lemma Apartness(timers: seq<Entry>, k: nat)
    requires Distinct(timers) && k <= |timers|
    ensures Distinct(timers[..k])
    ensures forall i :: 0 <= i < k ==> Absent(timers[k..], timers[..k][i].timer.address)
  {
  }
}
