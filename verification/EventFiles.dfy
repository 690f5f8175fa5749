/** File events of the event loop, and the sets select(2) is given for them. */
module EventFiles {
  datatype Mask = Mask(r: bool, w: bool, barrier: bool)

  const NONE := Mask(false, false, false)

  function Plus(a: Mask, b: Mask): Mask { Mask(a.r || b.r, a.w || b.w, a.barrier || b.barrier) }

  function Minus(a: Mask, b: Mask): Mask { Mask(a.r && !b.r, a.w && !b.w, a.barrier && !b.barrier) }

  datatype Fired = Fired(fd: nat, r: bool, w: bool)

  const FD_SETSIZE: nat := 1024

  // What a poll reports: every registered descriptor up to n, in order, with what it
  // waited for and what is ready.
  ghost function Reported(masks: seq<Mask>, readable: set<nat>, writable: set<nat>, n: nat): seq<Fired>
    requires n <= |masks|
  {
    if n == 0 then []
    else
      var m := masks[n - 1];
      Reported(masks, readable, writable, n - 1)
      + if m == NONE then [] else [Fired(n - 1, m.r && n - 1 in readable, m.w && n - 1 in writable)]
  }

  lemma {:induction false} ReportedFits(masks: seq<Mask>, readable: set<nat>, writable: set<nat>, n: nat)
    requires n <= |masks|
    ensures |Reported(masks, readable, writable, n)| <= n
  {
    if n > 0 { ReportedFits(masks, readable, writable, n - 1); }
  }

  /** A descriptor is reported exactly if it is registered. */
  lemma {:induction false} ReportedIffRegistered(masks: seq<Mask>, readable: set<nat>, writable: set<nat>, n: nat, fd: nat)
    requires n <= |masks|
    ensures (exists f :: f in Reported(masks, readable, writable, n) && f.fd == fd) <==> fd < n && masks[fd] != NONE
  {
    if n > 0 {
      ReportedIffRegistered(masks, readable, writable, n - 1, fd);
      var before := Reported(masks, readable, writable, n - 1);
      var m := masks[n - 1];
      if m != NONE {
        var last := Fired(n - 1, m.r && n - 1 in readable, m.w && n - 1 in writable);
        assert Reported(masks, readable, writable, n) == before + [last];
        assert last in before + [last];
        if f :| f in before && f.fd == fd { assert f in before + [last]; }
      }
    }
  }

  /** An entry is readable exactly if its mask asks for that and the descriptor is readable,
      and likewise writable; no descriptor is reported twice, smaller ones first. */
  lemma {:induction false} ReportedIs(masks: seq<Mask>, readable: set<nat>, writable: set<nat>, n: nat)
    requires n <= |masks|
    ensures
      var fired := Reported(masks, readable, writable, n);
      && (forall f | f in fired ::
            && f.fd < n
            && (f.r <==> masks[f.fd].r && f.fd in readable)
            && (f.w <==> masks[f.fd].w && f.fd in writable))
      && forall i, j | 0 <= i < j < |fired| :: fired[i].fd < fired[j].fd
  {
    if n > 0 { ReportedIs(masks, readable, writable, n - 1); }
  }

  class EventLoop {
    var maxfd: int
    var setsize: nat
    var events: array<Mask>
    var fired: array<Fired>
    var rfds: set<nat>
    var wfds: set<nat>

    // fired never needs more room than events; select's sets mirror the masks.
    ghost predicate Mirrors()
      reads this, events
    {
      && events.Length == setsize == fired.Length
      && (forall fd: nat :: fd in rfds <==> fd < setsize && events[fd].r)
      && (forall fd: nat :: fd in wfds <==> fd < setsize && events[fd].w)
    }

    /** maxfd is the largest registered descriptor, or -1. */
    ghost predicate MaxIsRight()
      reads this, events
    {
      && -1 <= maxfd < events.Length
      && (maxfd >= 0 ==> events[maxfd] != NONE)
      && forall fd | maxfd < fd < events.Length :: events[fd] == NONE
    }

    ghost predicate Valid()
      reads this, events
    {
      Mirrors() && MaxIsRight()
    }

    ghost function Masks(): seq<Mask>
      reads this, events
    {
      events[..]
    }

    constructor (setsize: nat)
      ensures Valid() && this.setsize == setsize && maxfd == -1 && fresh(events) && fresh(fired)
      ensures forall fd | 0 <= fd < setsize :: events[fd] == NONE
    {
      this.setsize := setsize;
      events := new Mask[setsize](_ => NONE);
      fired := new Fired[setsize](_ => Fired(0, false, false));
      maxfd := -1;
      rfds, wfds := {}, {};
    }

    /** Refused if a registered descriptor would not fit; else every mask stays. */
    method Resize(size: nat) returns (ok: bool)
      requires Valid()
      modifies this
      ensures Valid()
      ensures ok <==> size == old(setsize) || (maxfd < size < FD_SETSIZE)
      ensures ok ==> setsize == size && maxfd == old(maxfd)
      ensures ok ==> forall fd | 0 <= fd < size :: events[fd] == if fd < old(setsize) then old(events[fd]) else NONE
      ensures !ok ==> setsize == old(setsize) && events == old(events)
    {
      if size == setsize { return true; }
      if maxfd >= size { return false; }
      if size >= FD_SETSIZE { return false; }
      var more := new Mask[size](_ => NONE);
      for i := 0 to maxfd + 1
        invariant Valid() && events == old(events) && maxfd == old(maxfd) && setsize == old(setsize)
        invariant forall k | 0 <= k < i :: more[k] == events[k]
        invariant forall k | i <= k < size :: more[k] == NONE
      {
        more[i] := events[i];
      }
      fired := new Fired[size](_ => Fired(0, false, false));
      events := more;
      setsize := size;
      return true;
    }

    /** Registers interest. Doing so with an empty mask would break maxfd. */
    method CreateFileEvent(fd: nat, mask: Mask) returns (ok: bool)
      requires Valid()
      modifies this`maxfd, this`rfds, this`wfds, events
      ensures Mirrors() && (ok <==> fd < setsize)
      ensures ok ==>
        var was, now := old(events[fd]), events[fd];
        && (now.r <==> was.r || mask.r) && (now.w <==> was.w || mask.w) && (now.barrier <==> was.barrier || mask.barrier)
        && maxfd == if fd > old(maxfd) then fd else old(maxfd)
      ensures forall k | 0 <= k < setsize && k != fd :: events[k] == old(events[k])
      ensures MaxIsRight() <==> !ok || mask != NONE || old(events[fd]) != NONE || fd <= old(maxfd)
    {
      if fd >= setsize { return false; }
      if mask.r { rfds := rfds + {fd}; }
      if mask.w { wfds := wfds + {fd}; }
      events[fd] := Plus(events[fd], mask);
      if fd > maxfd { maxfd := fd; }
      return true;
    }

    method DeleteFileEvent(fd: nat, mask: Mask)
      requires Valid()
      modifies this`maxfd, this`rfds, this`wfds, events
      ensures Valid()
      ensures fd < setsize ==>
        var was, now := old(events[fd]), events[fd];
        && (now.r <==> was.r && !mask.r) && (now.w <==> was.w && !mask.w)
        && (now.barrier <==> was.barrier && !mask.barrier && !mask.w)
      ensures forall k | 0 <= k < setsize && k != fd :: events[k] == old(events[k])
    {
      if fd >= setsize { return; }
      if events[fd] == NONE { return; }
      var m := mask.(barrier := mask.barrier || mask.w);
      if m.r { rfds := rfds - {fd}; }
      if m.w { wfds := wfds - {fd}; }
      events[fd] := Minus(events[fd], m);
      if fd == maxfd && events[fd] == NONE { LowerMaxfd(); }
    }

    // The largest descriptor is not registered any more.
    method LowerMaxfd()
      requires Mirrors() && 0 <= maxfd < events.Length && forall k | maxfd <= k < events.Length :: events[k] == NONE
      modifies this`maxfd
      ensures Valid()
    {
      var j := maxfd - 1;
      while j >= 0 && events[j] == NONE
        invariant -1 <= j < maxfd && forall k | j < k < events.Length :: events[k] == NONE
      {
        j := j - 1;
      }
      maxfd := j;
    }

    /** What a poll writes never exceeds the room there is for it: at most one entry for
        each descriptor up to maxfd. */
    method ApiPoll(readable: set<nat>, writable: set<nat>, timedOut: bool) returns (n: nat)
      requires Valid()
      modifies fired
      ensures Valid() && n <= maxfd + 1 <= fired.Length
      ensures fired[..n] == if timedOut then [] else Reported(Masks(), readable * rfds, writable * wfds, |Masks()|)
    {
      n := 0;
      if timedOut { return; }
      ghost var masks := Masks();
      var r, w := readable * rfds, writable * wfds;
      for j := 0 to maxfd + 1
        invariant Valid() && n <= j && Masks() == masks
        invariant fired[..n] == Reported(masks, r, w, j)
      {
        ghost var before := fired[..n];
        if events[j] != NONE {
          fired[n] := Fired(j, events[j].r && j in r, events[j].w && j in w);
          assert fired[..n] == before;
          assert fired[..n + 1] == fired[..n] + [fired[n]];
          n := n + 1;
        }
      }
      NothingAbove(masks, r, w, maxfd + 1, |masks|);
    }
  }

  lemma {:induction false} NothingAbove(masks: seq<Mask>, r: set<nat>, w: set<nat>, a: nat, b: nat)
    requires a <= b <= |masks| && forall k | a <= k < b :: masks[k] == NONE
    ensures Reported(masks, r, w, b) == Reported(masks, r, w, a)
  {
    if a < b { NothingAbove(masks, r, w, a, b - 1); }
  }

  /** Registering descriptor 2 for nothing in a fresh loop makes it the largest one, although
      it is not registered. */
  method EmptyMaskExample() returns (loop: EventLoop)
    ensures loop.events.Length == 3 && loop.maxfd == 2 && loop.events[2] == NONE && !loop.MaxIsRight()
  {
    loop := new EventLoop(3);
    var ok := loop.CreateFileEvent(2, NONE);
  }
}
