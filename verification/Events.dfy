/** The event hub: every subscriber receives every event emitted after it
    subscribed, and subscribers that went away are dropped on the next event. */
module Events {
  import opened Common

  datatype ClientEvent = Online | Offline | Status(online: nat, total: nat)

  // The two ends of one channel. Sending succeeds while the receiver lives.
  class Channel {
    var received: seq<ClientEvent>
    var live: bool

    constructor ()
      ensures received == [] && live
    {
      received := [];
      live := true;
    }

    method Send(ev: ClientEvent) returns (ok: bool)
      modifies this`received
      ensures ok == live
      ensures received == old(received) + if live then [ev] else []
    {
      if live {
        received := received + [ev];
      }
      ok := live;
    }
  }

  predicate Distinct(subs: seq<Channel>) {
    forall i, j :: 0 <= i < j < |subs| ==> subs[i] != subs[j]
  }

  // The subscribers still alive, in order.
  function Live(subs: seq<Channel>): (alive: seq<Channel>)
    reads subs
    ensures forall i :: 0 <= i < |alive| ==> alive[i] in subs && alive[i].live
  {
    if subs == [] then []
    else Live(subs[..|subs| - 1]) + if subs[|subs| - 1].live then [subs[|subs| - 1]] else []
  }

  lemma {:induction false} LiveSubset(subs: seq<Channel>)
    ensures forall c :: c in Live(subs) <==> c in subs && c.live
    ensures Distinct(subs) ==> Distinct(Live(subs))
  {
    if subs != [] {
      var front, last := subs[..|subs| - 1], subs[|subs| - 1];
      LiveSubset(front);
      assert subs == front + [last];
      if Distinct(subs) && last.live {
        forall i | 0 <= i < |Live(front)| ensures Live(front)[i] != last {
          var c := Live(front)[i];
          var j :| 0 <= j < |front| && front[j] == c;
          assert subs[j] == c;
        }
      }
    }
  }

  lemma {:induction false} AllLive(subs: seq<Channel>)
    requires forall c :: c in subs ==> c.live
    ensures Live(subs) == subs
  {
    if subs != [] {
      var front, last := subs[..|subs| - 1], subs[|subs| - 1];
      assert subs == front + [last] && last in subs;
      AllLive(front);
    }
  }

  function Flags(subs: seq<Channel>): (flags: seq<bool>)
    reads subs
    ensures |flags| == |subs| && forall i :: 0 <= i < |subs| ==> flags[i] == subs[i].live
  {
    seq(|subs|, i requires 0 <= i < |subs| reads subs => subs[i].live)
  }

  function Filter(subs: seq<Channel>, flags: seq<bool>, n: nat): seq<Channel>
    requires n <= |subs| == |flags|
  {
    if n == 0 then [] else Filter(subs, flags, n - 1) + if flags[n - 1] then [subs[n - 1]] else []
  }

  lemma {:induction false} LiveIsFilter(subs: seq<Channel>, n: nat)
    requires n <= |subs|
    ensures Live(subs[..n]) == Filter(subs, Flags(subs), n)
  {
    if n > 0 {
      LiveIsFilter(subs, n - 1);
      assert subs[..n][..n - 1] == subs[..n - 1];
    }
  }

  // Sends to every channel in turn and keeps those that could receive.
  method SendAll(subs: seq<Channel>, ev: ClientEvent) returns (kept: seq<Channel>)
    requires Distinct(subs)
    modifies subs`received
    ensures kept == old(Live(subs))
    ensures forall i :: 0 <= i < |subs| ==>
              subs[i].received == old(subs[i].received) + if subs[i].live then [ev] else []
  {
    hide Flags, Live;
    ghost var flags := Flags(subs);
    LiveIsFilter(subs, |subs|);
    assert subs[..|subs|] == subs;
    kept := [];
    var i := 0;
    while i < |subs|
      modifies subs`received
      invariant 0 <= i <= |subs| && kept == Filter(subs, flags, i)
      invariant forall j :: 0 <= j < i ==>
                  subs[j].received == old(subs[j].received) + if subs[j].live then [ev] else []
      invariant forall j :: i <= j < |subs| ==> subs[j].received == old(subs[j].received)
    {
      var ok := subs[i].Send(ev);
      if ok {
        kept := kept + [subs[i]];
      }
      i := i + 1;
    }
  }

  class Hub {
    var subs: seq<Channel>

    ghost predicate Valid()
      reads this
    {
      Distinct(subs)
    }

    constructor ()
      ensures Valid() && subs == []
    {
      subs := [];
    }

    method Subscribe() returns (rx: Channel)
      requires Valid()
      modifies this
      ensures Valid() && fresh(rx) && rx.live && rx.received == []
      ensures subs == old(subs) + [rx]
    {
      rx := new Channel();
      subs := subs + [rx];
    }

    method Emit(ev: ClientEvent)
      requires Valid()
      modifies this, subs`received
      ensures Valid() && subs == old(Live(subs))
      ensures Reached(old(subs), [ev])
    {
      hide Live;
      LiveSubset(subs);
      subs := SendAll(subs, ev);
    }

    method EmitTwo(first: ClientEvent, second: ClientEvent)
      requires Valid()
      modifies this, subs`received
      ensures Valid() && subs == old(Live(subs))
      ensures Reached(old(subs), [first, second])
    {
      hide Live, Distinct;
      LiveSubset(subs);
      Emit(first);
      AllLive(subs);
      Emit(second);
    }
  }

  // What each subscriber has received after events `evs`, given what it had.
  twostate predicate Reached(subs: seq<Channel>, evs: seq<ClientEvent>)
    reads subs
  {
    forall c :: c in subs ==>
      c.live == old(c.live) && c.received == old(c.received) + if c.live then evs else []
  }

  // The online counter with the events its changes emit under its lock.
  class OnlineCount {
    var cnt: nat
    const events: Hub

    constructor (events: Hub)
      ensures cnt == 0 && this.events == events
    {
      cnt := 0;
      this.events := events;
    }

    // `total` is the connection count read along the way.
    method Incr(total: nat)
      requires events.Valid()
      modifies this, events, events.subs`received
      ensures events.Valid() && cnt == old(cnt) + 1
      ensures Reached(old(events.subs), if cnt == 1 then [Status(1, total), Online] else [])
      ensures events.subs == if cnt == 1 then old(Live(events.subs)) else old(events.subs)
    {
      cnt := cnt + 1;
      if cnt == 1 {
        events.EmitTwo(Status(cnt, total), Online);
      }
    }

    method Decr(total: nat)
      requires events.Valid() && cnt >= 1
      modifies this, events, events.subs`received
      ensures events.Valid() && cnt == old(cnt) - 1
      ensures Reached(old(events.subs), if cnt == 0 then [Status(0, total), Offline] else [])
      ensures events.subs == if cnt == 0 then old(Live(events.subs)) else old(events.subs)
    {
      cnt := cnt - 1;
      if cnt == 0 {
        events.EmitTwo(Status(cnt, total), Offline);
      }
    }
  }
}
