/** Registration of channels with epoll (src/muduo_core/EPollPoller.cc, Channel.h, Poller.cc): the
    index kept in each channel, the poller's own table and the kernel's interest set agree. */
module Pollers {
  import opened Text

  type Mask = bv8

  const NONE_EVENT: Mask := 0
  /** EPOLLIN | EPOLLPRI */
  const READ_EVENT: Mask := 3
  /** EPOLLOUT */
  const WRITE_EVENT: Mask := 4

  const K_NEW := -1
  const K_ADDED := 1
  const K_DELETED := 2

  datatype Change = EnableReading | DisableReading | EnableWriting | DisableWriting | DisableAll | Remove

  function With(events: Mask, bits: Mask): Mask {
    events | bits
  }

  function Without(events: Mask, bits: Mask): Mask {
    events & !bits
  }

  predicate Has(events: Mask, bits: Mask) {
    events & bits != 0
  }

  /** Reading and writing interest are independent bits. */
  lemma Bits(events: Mask)
    ensures Has(With(events, WRITE_EVENT), WRITE_EVENT) && !Has(Without(events, WRITE_EVENT), WRITE_EVENT)
    ensures Has(With(events, READ_EVENT), WRITE_EVENT) == Has(events, WRITE_EVENT)
    ensures Has(Without(events, READ_EVENT), WRITE_EVENT) == Has(events, WRITE_EVENT)
    ensures Has(events, WRITE_EVENT) ==> With(events, WRITE_EVENT) == events
    ensures !Has(NONE_EVENT, WRITE_EVENT) && Without(NONE_EVENT, READ_EVENT) == NONE_EVENT
    ensures Has(With(events, READ_EVENT), READ_EVENT) && !Has(Without(events, READ_EVENT), READ_EVENT)
    ensures Has(With(events, WRITE_EVENT), READ_EVENT) == Has(events, READ_EVENT)
    ensures Has(Without(events, WRITE_EVENT), READ_EVENT) == Has(events, READ_EVENT)
  {
  }

  function Masked(events: Mask, change: Change): Mask {
    match change
    case EnableReading => With(events, READ_EVENT)
    case DisableReading => Without(events, READ_EVENT)
    case EnableWriting => With(events, WRITE_EVENT)
    case DisableWriting => Without(events, WRITE_EVENT)
    case DisableAll => NONE_EVENT
    case Remove => events
  }

  // ---------- the kernel ----------

  datatype Ctl = Add | Mod | Del

  /** epoll_ctl: EEXIST for an fd already in the set, ENOENT for one that is not. */
  function EpollCtl(interest: map<int, Mask>, ctl: Ctl, fd: int, events: Mask): Option<map<int, Mask>> {
    match ctl
    case Add => if fd in interest then None else Some(interest[fd := events])
    case Mod => if fd in interest then Some(interest[fd := events]) else None
    case Del => if fd in interest then Some(interest - {fd}) else None
  }

  /** The kernel's set and the number of refused calls after one call. */
  function AfterCtl(interest: map<int, Mask>, failures: nat, ctl: Ctl, fd: int, events: Mask): (map<int, Mask>, nat) {
    var r := EpollCtl(interest, ctl, fd, events);
    if r.Some? then (r.value, failures) else (interest, failures + 1)
  }

  // ---------- one channel ----------

  /** Everything there is to know about one channel: its mask and index, whether the poller's table
      holds it, and what the kernel holds for its fd. */
  datatype View = View(events: Mask, index: int, listed: bool, kernel: Option<Mask>)

  const FreshView := View(NONE_EVENT, K_NEW, false, None)

  function Apply(v: View, change: Change): View {
    var events := Masked(v.events, change);
    if change.Remove? then View(v.events, K_NEW, false, if v.index == K_ADDED then None else v.kernel)
    else if v.index == K_ADDED && events == NONE_EVENT then v.(events := events, index := K_DELETED, kernel := None)
    else View(events, K_ADDED, v.listed || v.index == K_NEW, Some(events))
  }

  function Run(changes: seq<Change>): View {
    if changes == [] then FreshView else Apply(Run(changes[..|changes| - 1]), changes[|changes| - 1])
  }

  predicate Agrees(v: View) {
    && v.index in {K_NEW, K_ADDED, K_DELETED}
    && v.kernel == (if v.index == K_ADDED then Some(v.events) else None)
    && v.listed == (v.index != K_NEW)
    && (v.index == K_DELETED ==> v.events == NONE_EVENT)
  }

  lemma ApplyKeeps(v: View, change: Change)
    requires Agrees(v)
    ensures Agrees(Apply(v, change)) && Apply(v, change).events == Masked(v.events, change)
    ensures !change.Remove? ==> Apply(v, change).listed
  {
    assert Masked(v.events, Remove) == v.events;
  }

  /** Over any history of one channel the index tells the truth, and a channel that was not removed
      is watched for exactly the events it asks for. */
  lemma {:induction false} EveryHistory(changes: seq<Change>)
    ensures Agrees(Run(changes))
    ensures var v := Run(changes);
            v.listed ==> (if v.kernel.Some? then v.kernel.value else NONE_EVENT) == v.events
  {
    if changes != [] {
      EveryHistory(changes[..|changes| - 1]);
    }
  }

  function Enabling(write: bool): Change {
    if write then EnableWriting else EnableReading
  }

  function Disabling(write: bool): Change {
    if write then DisableWriting else DisableReading
  }

  /** The interest was switched on and not off again. */
  ghost predicate Wanted(changes: seq<Change>, write: bool) {
    exists k ::
      && 0 <= k < |changes| && changes[k] == Enabling(write)
      && forall j :: k < j < |changes| ==> changes[j] != Disabling(write) && changes[j] != DisableAll
  }

  lemma WantedLast(changes: seq<Change>, write: bool)
    requires changes != []
    ensures var last := changes[|changes| - 1];
            Wanted(changes, write) ==
            (last == Enabling(write)
             || (last != Disabling(write) && last != DisableAll && Wanted(changes[..|changes| - 1], write)))
  {
    var n := |changes| - 1;
    var front, last := changes[..n], changes[n];
    if last == Enabling(write) {
      assert changes[n] == Enabling(write);
    } else if Wanted(front, write) && last != Disabling(write) && last != DisableAll {
      var k :| 0 <= k < n && front[k] == Enabling(write)
               && forall j :: k < j < n ==> front[j] != Disabling(write) && front[j] != DisableAll;
      forall j | k < j < |changes| ensures changes[j] != Disabling(write) && changes[j] != DisableAll {
        assert j < n ==> changes[j] == front[j];
      }
      assert changes[k] == Enabling(write);
    }
    if Wanted(changes, write) && last != Enabling(write) {
      var k :| 0 <= k < |changes| && changes[k] == Enabling(write)
               && forall j :: k < j < |changes| ==> changes[j] != Disabling(write) && changes[j] != DisableAll;
      assert front[k] == Enabling(write);
    }
  }

  lemma MaskedBits(events: Mask, change: Change)
    requires events & 0xf8 == 0 && (events & 1 != 0) == (events & 2 != 0)
    ensures var e := Masked(events, change);
            && e & 0xf8 == 0 && (e & 1 != 0) == (e & 2 != 0)
            && (e & 1 != 0) == (change == EnableReading
                                || (change != DisableReading && change != DisableAll && events & 1 != 0))
            && (e & 4 != 0) == (change == EnableWriting
                                || (change != DisableWriting && change != DisableAll && events & 4 != 0))
  {
  }

  /** The mask a channel asks for over any history: EPOLLIN (1) and EPOLLPRI (2) exactly while reading,
      EPOLLOUT (4) exactly while writing is wanted, and no other bit. */
  lemma {:induction false} MaskMeaning(changes: seq<Change>)
    ensures var e := Run(changes).events;
            && ((e & 1 != 0) <==> Wanted(changes, false))
            && ((e & 2 != 0) <==> Wanted(changes, false))
            && ((e & 4 != 0) <==> Wanted(changes, true))
            && e & 0xf8 == 0
  {
    hide Wanted, Masked;
    if changes == [] {
      NothingWanted(changes);
    } else {
      var front, last := changes[..|changes| - 1], changes[|changes| - 1];
      MaskMeaning(front);
      EveryHistory(front);
      ApplyKeeps(Run(front), last);
      MaskedBits(Run(front).events, last);
      WantedLast(changes, false);
      WantedLast(changes, true);
    }
  }

  lemma NothingWanted(changes: seq<Change>)
    requires changes == []
    ensures !Wanted(changes, false) && !Wanted(changes, true)
  {
  }

  /** Whatever leaves a channel without interest, `disableAll` or taking off the last or an absent
      bit: the fd ends in the kernel's set, with an empty mask, exactly if it was not in it before.
      The guard looks at the index only, so repeating the change puts it in and takes it out in turn. */
  lemma NoInterestTogglesTheFd(v: View, change: Change)
    requires Agrees(v) && !change.Remove? && Masked(v.events, change) == NONE_EVENT
    ensures var once := Apply(v, change);
            && (once.kernel == Some(NONE_EVENT) <==> v.index != K_ADDED)
            && (once.kernel == None <==> v.index == K_ADDED)
            && once.events == NONE_EVENT && once.listed
            && Apply(Apply(once, change), change) == once
  {
    MaskedAgain(v.events, change);
    hide Masked;
    var once := Apply(v, change);
    assert Agrees(once);
    assert Apply(once, change).index != once.index;
  }

  lemma MaskedAgain(events: Mask, change: Change)
    ensures Masked(Masked(events, change), change) == Masked(events, change)
  {
  }

  // ---------- the objects ----------

  class Channel {
    const fd: int
    var events: Mask
    var index: int

    constructor (fd: int)
      ensures this.fd == fd && events == NONE_EVENT && index == K_NEW
    {
      this.fd, events, index := fd, NONE_EVENT, K_NEW;
    }

    predicate IsNoneEvent()
      reads this
    {
      events == NONE_EVENT
    }
  }

  class EPollPoller {
    var channels: map<int, Channel>
    /** The kernel's interest set, and how often epoll_ctl has failed. */
    var interest: map<int, Mask>
    var failures: nat
    /** The channels of this loop that exist; their fds are open, hence distinct. */
    ghost var owned: set<Channel>

    ghost function ViewOf(c: Channel): View
      reads this, c
    {
      View(c.events, c.index, c.fd in channels && channels[c.fd] == c,
           if c.fd in interest then Some(interest[c.fd]) else None)
    }

    ghost predicate Valid()
      reads this, owned
    {
      && (forall c, d :: c in owned && d in owned && c.fd == d.fd ==> c == d)
      && (forall c :: c in owned ==> Agrees(ViewOf(c)))
      && (forall fd :: fd in channels ==> channels[fd] in owned && channels[fd].fd == fd)
      && (forall fd :: fd in interest ==> exists c :: c in owned && c.fd == fd)
      && failures == 0
    }

    constructor ()
      ensures Valid() && owned == {} && interest == map[] && channels == map[]
    {
      channels, interest, failures, owned := map[], map[], 0, {};
    }

    ghost method Open(c: Channel)
      requires Valid() && c !in owned && c.events == NONE_EVENT && c.index == K_NEW
      requires forall d :: d in owned ==> d.fd != c.fd
      modifies this`owned
      ensures Valid() && owned == old(owned) + {c} && ViewOf(c) == FreshView
    {
      owned := owned + {c};
    }

    predicate HasChannel(c: Channel)
      reads this
    {
      c.fd in channels && channels[c.fd] == c
    }

    method Update(ctl: Ctl, c: Channel)
      modifies this`interest, this`failures
      ensures (interest, failures) == AfterCtl(old(interest), old(failures), ctl, c.fd, c.events)
    {
      var r := EpollCtl(interest, ctl, c.fd, c.events);
      if r.Some? {
        interest := r.value;
      } else {
        failures := failures + 1;
      }
    }

    method UpdateChannel(c: Channel)
      modifies this`channels, this`interest, this`failures, c`index
      ensures channels == if old(c.index) == K_NEW then old(channels)[c.fd := c] else old(channels)
      ensures c.index == if old(c.index) == K_NEW || old(c.index) == K_DELETED then K_ADDED
                         else if c.IsNoneEvent() then K_DELETED else old(c.index)
      ensures var ctl := if old(c.index) == K_NEW || old(c.index) == K_DELETED then Add
                         else if c.IsNoneEvent() then Del else Mod;
              (interest, failures) == AfterCtl(old(interest), old(failures), ctl, c.fd, c.events)
    {
      if c.index == K_NEW || c.index == K_DELETED {
        if c.index == K_NEW {
          channels := channels[c.fd := c];
        }
        c.index := K_ADDED;
        Update(Add, c);
      } else {
        if c.IsNoneEvent() {
          Update(Del, c);
          c.index := K_DELETED;
        } else {
          Update(Mod, c);
        }
      }
    }

    method RemoveChannel(c: Channel)
      modifies this`channels, this`interest, this`failures, c`index
      ensures channels == old(channels) - {c.fd} && c.index == K_NEW
      ensures (interest, failures)
           == if old(c.index) == K_ADDED then AfterCtl(old(interest), old(failures), Del, c.fd, c.events)
              else (old(interest), old(failures))
    {
      channels := channels - {c.fd};
      if c.index == K_ADDED {
        Update(Del, c);
      }
      c.index := K_NEW;
    }

    /** One interest change of one channel: it moves as `Apply` says, epoll_ctl accepts the call, and
        no other channel notices. */
    method Perform(c: Channel, change: Change)
      requires Valid() && c in owned
      modifies this`channels, this`interest, this`failures, c
      ensures Valid()
      ensures ViewOf(c) == Apply(old(ViewOf(c)), change)
      ensures forall d :: d in owned && d != c ==> ViewOf(d) == old(ViewOf(d))
    {
      hide Masked;
      ghost var before := ViewOf(c);
      assert Agrees(before);
      if change.Remove? {
        RemoveChannel(c);
        assert ViewOf(c) == Apply(before, change);
      } else {
        c.events := Masked(c.events, change);
        UpdateChannel(c);
        assert ViewOf(c) == Apply(before, change);
      }
      assert forall d :: d in owned && d != c ==> ViewOf(d) == old(ViewOf(d));
    }
  }

  /** The changes a script makes to one channel. */
  ghost function ChangesOf(c: Channel, script: seq<(Channel, Change)>): seq<Change> {
    if script == [] then []
    else
      var rest, last := ChangesOf(c, script[..|script| - 1]), script[|script| - 1];
      if last.0 == c then rest + [last.1] else rest
  }

  /** Any script over any freshly opened channels: each channel ends where its own changes alone
      lead, the table holds the channels whose index is not K_NEW, and epoll_ctl never failed. */
  method Play(poller: EPollPoller, script: seq<(Channel, Change)>)
    requires poller.Valid()
    requires forall c :: c in poller.owned ==> poller.ViewOf(c) == FreshView
    requires forall i :: 0 <= i < |script| ==> script[i].0 in poller.owned
    modifies poller, poller.owned
    ensures poller.Valid() && poller.owned == old(poller.owned)
    ensures forall c :: c in poller.owned ==> poller.ViewOf(c) == Run(ChangesOf(c, script))
    ensures forall c :: c in poller.owned ==> (c.index != K_NEW <==> poller.HasChannel(c))
    ensures poller.failures == 0
  {
    for i := 0 to |script|
      invariant poller.Valid() && poller.owned == old(poller.owned)
      invariant forall c :: c in poller.owned ==> poller.ViewOf(c) == Run(ChangesOf(c, script[..i]))
    {
      assert script[..i + 1][..i] == script[..i];
      poller.Perform(script[i].0, script[i].1);
      RunGrows(script[i].0, script[..i], script[i].1);
    }
    assert script[..|script|] == script;
  }

  lemma RunGrows(c: Channel, script: seq<(Channel, Change)>, change: Change)
    ensures Run(ChangesOf(c, script + [(c, change)])) == Apply(Run(ChangesOf(c, script)), change)
  {
    assert (script + [(c, change)])[..|script|] == script;
    var rest := ChangesOf(c, script);
    assert (rest + [change])[..|rest|] == rest;
  }
}
