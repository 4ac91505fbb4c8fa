/**
 * `PacketMonitor`: the registry of per-connection monitors, keyed by the
 * connection string. A message for a connection not yet seen creates its
 * monitor; a parse failure inside a monitor is swallowed; after every
 * message the connections idle for more than two minutes are removed; and
 * whenever a monitor announces a sample, the highest current ping over all
 * connections becomes the registry's current ping and is announced.
 *
 * The `Dictionary` of connections is its entries in enumeration order; the
 * sweep and the maximum do not depend on that order.
 */
module Registry {
  import opened Bytes
  import opened Def
  import opened Packets
  import opened Wrappers
  import opened PingSamples
  import opened Dicts
  import opened Monitor

  /** `TotalMinutes > 2`, in milliseconds. */
  const IdleLimit: nat := 2 * 60 * 1000

  type Views = seq<Entry<string, View>>

  predicate Idle(v: View, now: int) {
    now - v.lastActivity > IdleLimit
  }

  // ---------------------------------------------------------------------
  // Selecting entries

  /** The positions where `keep` holds, in ascending order. */
  function Positions(keep: seq<bool>): (p: seq<nat>)
    ensures forall j :: 0 <= j < |p| ==> p[j] < |keep| && keep[p[j]]
    ensures forall j, k :: 0 <= j < k < |p| ==> p[j] < p[k]
    decreases |keep|
  {
    if |keep| == 0 then []
    else
      var init := keep[..|keep| - 1];
      var rest := Positions(init);
      assert forall i :: 0 <= i < |init| ==> init[i] == keep[i];
      if keep[|keep| - 1] then rest + [|keep| - 1] else rest
  }

  /** Every position where `keep` holds is listed. */
  lemma {:induction false} PositionsComplete(keep: seq<bool>, i: nat)
    requires i < |keep| && keep[i]
    ensures exists j :: 0 <= j < |Positions(keep)| && Positions(keep)[j] == i
    decreases |keep|
  {
    var init := keep[..|keep| - 1];
    var rest := Positions(init);
    var p := Positions(keep);
    if i == |keep| - 1 {
      assert p[|p| - 1] == i;
    } else {
      assert init[i] == keep[i];
      PositionsComplete(init, i);
      var j :| 0 <= j < |rest| && rest[j] == i;
      assert p[j] == i;
    }
  }

  /** The elements of `s` where `keep` holds, in their order. */
  function Select<T>(s: seq<T>, keep: seq<bool>): (r: seq<T>)
    requires |keep| == |s|
  {
    var p := Positions(keep);
    seq(|p|, j requires 0 <= j < |p| => s[p[j]])
  }

  lemma {:induction false} SelectIn<T>(s: seq<T>, keep: seq<bool>)
    requires |keep| == |s|
    ensures forall x :: x in Select(s, keep) <==> exists i :: 0 <= i < |s| && keep[i] && s[i] == x
  {
    var p := Positions(keep);
    var r := Select(s, keep);
    forall x
      ensures x in r <==> exists i :: 0 <= i < |s| && keep[i] && s[i] == x
    {
      if x in r {
        var j :| 0 <= j < |r| && r[j] == x;
        assert s[p[j]] == x;
      }
      if exists i :: 0 <= i < |s| && keep[i] && s[i] == x {
        var i :| 0 <= i < |s| && keep[i] && s[i] == x;
        PositionsComplete(keep, i);
        var j :| 0 <= j < |p| && p[j] == i;
        assert r[j] == x;
      }
    }
  }

  /** Selecting keeps keys distinct. */
  lemma {:induction false} SelectDistinct<V>(s: seq<Entry<string, V>>, keep: seq<bool>)
    requires |keep| == |s| && DistinctKeys(s)
    ensures DistinctKeys(Select(s, keep))
  {
    var p := Positions(keep);
    var r := Select(s, keep);
    forall i, j | 0 <= i < j < |r|
      ensures r[i].key != r[j].key
    {
      assert r[i] == s[p[i]] && r[j] == s[p[j]];
    }
  }

  /** Which connections the sweep keeps. */
  function Active(vs: Views, now: int): (keep: seq<bool>)
    ensures |keep| == |vs|
  {
    seq(|vs|, i requires 0 <= i < |vs| => !Idle(vs[i].value, now))
  }

  /** `CheckActivity`: remove the connections idle for more than two minutes. */
  function Sweep(vs: Views, now: int): Views {
    Select(vs, Active(vs, now))
  }

  /** The sweep keeps exactly the entries that are not idle, and keys stay distinct. */
  lemma {:induction false} SweepKeeps(vs: Views, now: int)
    ensures forall e :: e in Sweep(vs, now) <==> e in vs && !Idle(e.value, now)
    ensures DistinctKeys(vs) ==> DistinctKeys(Sweep(vs, now))
  {
    var keep := Active(vs, now);
    SelectIn(vs, keep);
    if DistinctKeys(vs) {
      SelectDistinct(vs, keep);
    }
  }

  /** The highest current ping over all connections. */
  function MaxPing(vs: Views): (m: int)
    requires |vs| > 0
    ensures exists i :: 0 <= i < |vs| && vs[i].value.currentPing == m
    ensures forall i :: 0 <= i < |vs| ==> vs[i].value.currentPing <= m
    decreases |vs|
  {
    if |vs| == 1 then vs[0].value.currentPing
    else
      var rest := MaxPing(vs[..|vs| - 1]);
      assert forall i :: 0 <= i < |vs| - 1 ==> vs[..|vs| - 1][i] == vs[i];
      var last := vs[|vs| - 1].value.currentPing;
      if last > rest then last else rest
  }

  // ---------------------------------------------------------------------
  // The registry as a value

  /** `MessageSent`: find or create the connection's monitor, let it handle
    * the message (a parse failure goes no further), then sweep. */
  function Sent(vs: Views, conn: string, version: ClientVersion, message: seq<u8>, now: int): Views {
    var v := GetOr(vs, conn, NewView(now));
    Sweep(Put(vs, conn, OnSent(v, version, message, now).0), now)
  }

  /** `MessageReceived`: as `Sent`; when the monitor announces a sample, the
    * maximum over all connections, taken before the sweep, becomes the
    * current ping and is announced. */
  function Received(vs: Views, current: int, conn: string, version: ClientVersion, message: seq<u8>, now: int): (Views, int, Option<int>) {
    var handled := OnReceived(GetOr(vs, conn, NewView(now)), version, message, now);
    var dispatched := Put(vs, conn, handled.0);
    if handled.1.Ok? && handled.1.value.Some? then (Sweep(dispatched, now), MaxPing(dispatched), Some(MaxPing(dispatched)))
    else (Sweep(dispatched, now), current, None)
  }

  /** After any message, whether or not it parses, its connection is
    * registered, stamped with `now`; every other connection is kept, as it
    * was, exactly when it has not been idle for more than two minutes. */
  lemma {:induction false} SentKeeps(vs: Views, conn: string, version: ClientVersion, message: seq<u8>, now: int)
    requires DistinctKeys(vs)
    ensures DistinctKeys(Sent(vs, conn, version, message, now))
    ensures Find(Sent(vs, conn, version, message, now), conn) >= 0
    ensures Sent(vs, conn, version, message, now)[Find(Sent(vs, conn, version, message, now), conn)].value.lastActivity == now
    ensures forall e: Entry<string, View> :: e.key != conn ==> (e in Sent(vs, conn, version, message, now) <==> e in vs && !Idle(e.value, now))
  {
    var v := GetOr(vs, conn, NewView(now));
    var after := OnSent(v, version, message, now).0;
    ActivityStamped(v, version, message, now);
    Dispatched(vs, conn, after, now);
  }

  /** The same holds after a received message. */
  lemma {:induction false} ReceivedKeeps(vs: Views, current: int, conn: string, version: ClientVersion, message: seq<u8>, now: int)
    requires DistinctKeys(vs)
    ensures var (after, _, _) := Received(vs, current, conn, version, message, now);
            && DistinctKeys(after)
            && Find(after, conn) >= 0 && after[Find(after, conn)].value.lastActivity == now
            && forall e: Entry<string, View> :: e.key != conn ==> (e in after <==> e in vs && !Idle(e.value, now))
  {
    var v := GetOr(vs, conn, NewView(now));
    var (mine, r) := OnReceived(v, version, message, now);
    ActivityStamped(v, version, message, now);
    Dispatched(vs, conn, mine, now);
  }

  /** A received message is announced exactly when its monitor announces a
    * sample, and then with a ping no connection exceeds: the dispatched one
    * with its new window, or another one as it was. Otherwise the current
    * ping stays. */
  lemma {:induction false} ReceivedAnnounces(vs: Views, current: int, conn: string, version: ClientVersion, message: seq<u8>, now: int)
    requires DistinctKeys(vs)
    ensures var (_, cur, n) := Received(vs, current, conn, version, message, now);
            var (mine, r) := OnReceived(GetOr(vs, conn, NewView(now)), version, message, now);
            && (n.Some? <==> r.Ok? && r.value.Some?)
            && (n.None? ==> cur == current)
            && (n.Some? ==>
                  && n.value == cur && mine.currentPing <= cur
                  && (forall e :: e in vs && e.key != conn ==> e.value.currentPing <= cur)
                  && (cur == mine.currentPing || exists e :: e in vs && e.key != conn && e.value.currentPing == cur))
  {
    var (mine, r) := OnReceived(GetOr(vs, conn, NewView(now)), version, message, now);
    PutMax(vs, conn, mine);
  }

  /** The maximum after putting `mine` under `conn`. */
  lemma {:induction false} PutMax(vs: Views, conn: string, mine: View)
    requires DistinctKeys(vs)
    ensures |Put(vs, conn, mine)| > 0
    ensures var m := MaxPing(Put(vs, conn, mine));
            && mine.currentPing <= m
            && (forall e :: e in vs && e.key != conn ==> e.value.currentPing <= m)
            && (m == mine.currentPing || exists e :: e in vs && e.key != conn && e.value.currentPing == m)
  {
    var d := Put(vs, conn, mine);
    PutEntries(vs, conn, mine);
    var m := MaxPing(d);
    var k :| 0 <= k < |d| && d[k] == Entry(conn, mine);
    forall e | e in vs && e.key != conn
      ensures e.value.currentPing <= m
    {
      var j :| 0 <= j < |d| && d[j] == e;
    }
    var i :| 0 <= i < |d| && d[i].value.currentPing == m;
    if d[i].key == conn {
      PutGet(vs, conn, mine, conn, NewView(0));
      FindDistinct(d, conn, i);
      FindDistinct(d, conn, k);
    } else {
      assert d[i] in d;
    }
  }

  /** Putting the dispatched monitor's new state and sweeping. */
  lemma {:induction false} Dispatched(vs: Views, conn: string, after: View, now: int)
    requires DistinctKeys(vs) && after.lastActivity == now
    ensures DistinctKeys(Sweep(Put(vs, conn, after), now))
    ensures Find(Sweep(Put(vs, conn, after), now), conn) >= 0
    ensures Sweep(Put(vs, conn, after), now)[Find(Sweep(Put(vs, conn, after), now), conn)] == Entry(conn, after)
    ensures forall e: Entry<string, View> :: e.key != conn ==> (e in Sweep(Put(vs, conn, after), now) <==> e in vs && !Idle(e.value, now))
  {
    var d := Put(vs, conn, after);
    PutGet(vs, conn, after, conn, NewView(now));
    PutEntries(vs, conn, after);
    SweepKeeps(d, now);
    var r := Sweep(d, now);
    assert Entry(conn, after) in r;
    var i :| 0 <= i < |r| && r[i] == Entry(conn, after);
    FindDistinct(r, conn, i);
  }

  // ---------------------------------------------------------------------
  // The registry object

  /** The objects of the monitors in `cs`. */
  ghost function Footprint(cs: seq<Entry<string, PerConnectionMonitor>>): set<object> {
    (set i | 0 <= i < |cs| :: cs[i].value as object)
    + (set i | 0 <= i < |cs| :: cs[i].value.keepAliveHandler as object)
    + (set i | 0 <= i < |cs| :: cs[i].value.ipcHandler as object)
  }

  /** Two monitors that share no object. */
  predicate Apart(a: PerConnectionMonitor, b: PerConnectionMonitor) {
    a != b && a.keepAliveHandler != b.keepAliveHandler && a.ipcHandler != b.ipcHandler
  }

  function ViewsOf(cs: seq<Entry<string, PerConnectionMonitor>>): (vs: Views)
    reads Footprint(cs)
    ensures |vs| == |cs| && forall i :: 0 <= i < |cs| ==> vs[i].key == cs[i].key
  {
    seq(|cs|, i requires 0 <= i < |cs| reads Footprint(cs) => Entry(cs[i].key, cs[i].value.Snapshot()))
  }

  /** Keys are distinct, every monitor is valid, and no two monitors share an object. */
  ghost predicate Well(cs: seq<Entry<string, PerConnectionMonitor>>)
    reads Footprint(cs)
  {
    && DistinctKeys(cs)
    && (forall i :: 0 <= i < |cs| ==> cs[i].value.Valid())
    && (forall i, j :: 0 <= i < |cs| && 0 <= j < |cs| && i != j ==> Apart(cs[i].value, cs[j].value))
  }

  lemma {:induction false} WellAppend(cs: seq<Entry<string, PerConnectionMonitor>>, c: Entry<string, PerConnectionMonitor>)
    requires Well(cs) && c.value.Valid() && Find(cs, c.key) < 0
    requires forall i :: 0 <= i < |cs| ==> Apart(cs[i].value, c.value) && Apart(c.value, cs[i].value)
    ensures Well(cs + [c])
  {
    var r := cs + [c];
    assert forall i :: 0 <= i < |cs| ==> r[i] == cs[i];
    assert r[|cs|] == c;
  }

  /** Selecting monitors keeps them well formed. */
  lemma {:induction false} WellSelect(cs: seq<Entry<string, PerConnectionMonitor>>, keep: seq<bool>)
    requires |keep| == |cs| && Well(cs)
    ensures Well(Select(cs, keep))
  {
    var p := Positions(keep);
    var r := Select(cs, keep);
    SelectDistinct(cs, keep);
    assert forall j :: 0 <= j < |r| ==> r[j] == cs[p[j]];
    forall i, j | 0 <= i < |r| && 0 <= j < |r| && i != j
      ensures Apart(r[i].value, r[j].value)
    {
      assert p[i] != p[j];
    }
  }

  /** The views of selected monitors are the selected views. */
  lemma {:induction false} ViewsOfSelect(cs: seq<Entry<string, PerConnectionMonitor>>, keep: seq<bool>)
    requires |keep| == |cs|
    ensures ViewsOf(Select(cs, keep)) == Select(ViewsOf(cs), keep)
  {
    var p := Positions(keep);
    var r := Select(cs, keep);
    assert forall j :: 0 <= j < |r| ==> r[j] == cs[p[j]];
  }

  lemma {:induction false} ViewsOfAppend(cs: seq<Entry<string, PerConnectionMonitor>>, c: Entry<string, PerConnectionMonitor>)
    ensures ViewsOf(cs + [c]) == ViewsOf(cs) + [Entry(c.key, c.value.Snapshot())]
  {
    assert forall i :: 0 <= i < |cs| ==> (cs + [c])[i] == cs[i];
  }

  class PacketMonitor {
    var connections: seq<Entry<string, PerConnectionMonitor>>
    var currentPing: int

    /** Keys are distinct, every monitor is valid, and no two monitors share an object. */
    ghost predicate Valid()
      reads this, Footprint(connections)
    {
      Well(connections)
    }

    function Views(): Views
      reads this, Footprint(connections)
    {
      ViewsOf(connections)
    }

    constructor()
      ensures Valid() && Views() == [] && currentPing == 0
    {
      connections := [];
      currentPing := 0;
    }

    /** `CheckActivity`: remove the connections idle for more than two minutes. */
    method CheckActivity(now: int)
      requires Valid()
      modifies this
      ensures Valid() && currentPing == old(currentPing)
      ensures Views() == Sweep(old(Views()), now)
    {
      var keep := Active(Views(), now);
      ViewsOfSelect(connections, keep);
      WellSelect(connections, keep);
      connections := Select(connections, keep);
    }

    /** `MessageSent`: the connection's monitor handles the message, a parse
      * failure goes no further, and the idle connections are removed. */
    method MessageSent(conn: string, version: ClientVersion, message: seq<u8>, now: int)
      requires Valid()
      modifies this, Footprint(connections)
      ensures Valid() && currentPing == old(currentPing)
      ensures Views() == Sent(old(Views()), conn, version, message, now)
    {
      DispatchSent(conn, version, message, now);
      CheckActivity(now);
    }

    /** `MessageReceived`: as `MessageSent`; when the monitor announces a
      * sample, the highest current ping over all connections becomes the
      * current ping and is announced. */
    method MessageReceived(conn: string, version: ClientVersion, message: seq<u8>, now: int) returns (notification: Option<int>)
      requires Valid()
      modifies this, Footprint(connections)
      ensures Valid()
      ensures (Views(), currentPing, notification) == Received(old(Views()), old(currentPing), conn, version, message, now)
    {
      var r := DispatchReceived(conn, version, message, now);
      if r.Ok? && r.value.Some? {
        notification := UpdateCurrentPing();
      } else {
        notification := None;
      }
      CheckActivity(now);
    }

    /** The connection's monitor, found or created, handles a sent message. */
    method DispatchSent(conn: string, version: ClientVersion, message: seq<u8>, now: int)
      requires Valid()
      modifies this, Footprint(connections)
      ensures Valid() && currentPing == old(currentPing)
      ensures Views() == Put(old(Views()), conn, OnSent(GetOr(old(Views()), conn, NewView(now)), version, message, now).0)
    {
      ghost var start := Views();
      ghost var handled := OnSent(GetOr(start, conn, NewView(now)), version, message, now);
      var i := MonitorFor(conn, now);
      Handed(start, conn, now, i, Views());
      SendTo(i, version, message, now);
      PutAgain(start, conn, GetOr(start, conn, NewView(now)), handled.0);
    }

    /** The connection's monitor, found or created, handles a received message. */
    method DispatchReceived(conn: string, version: ClientVersion, message: seq<u8>, now: int) returns (r: Result<Option<PingSample>>)
      requires Valid()
      modifies this, Footprint(connections)
      ensures Valid() && currentPing == old(currentPing)
      ensures (Views(), r) == (Put(old(Views()), conn, OnReceived(GetOr(old(Views()), conn, NewView(now)), version, message, now).0),
                               OnReceived(GetOr(old(Views()), conn, NewView(now)), version, message, now).1)
    {
      ghost var start := Views();
      ghost var handled := OnReceived(GetOr(start, conn, NewView(now)), version, message, now);
      var i := MonitorFor(conn, now);
      Handed(start, conn, now, i, Views());
      r := ReceiveAt(i, version, message, now);
      PutAgain(start, conn, GetOr(start, conn, NewView(now)), handled.0);
    }

    /** `MonitorOnOnPingSample`: the highest current ping over all connections
      * becomes the current ping and is announced. */
    method UpdateCurrentPing() returns (notification: Option<int>)
      requires Valid() && |connections| > 0
      modifies this`currentPing
      ensures Valid() && Views() == old(Views())
      ensures currentPing == MaxPing(Views()) && notification == Some(currentPing)
    {
      currentPing := MaxPing(Views());
      notification := Some(currentPing);
    }

    /** Monitor `i` handles a sent message; a parse failure is swallowed. */
    method SendTo(i: nat, version: ClientVersion, message: seq<u8>, now: int)
      requires Valid() && i < |connections|
      modifies connections[i].value, connections[i].value.keepAliveHandler, connections[i].value.ipcHandler
      ensures Valid()
      ensures Views() == old(Views())[i := Entry(connections[i].key, OnSent(old(Views())[i].value, version, message, now).0)]
    {
      var monitor := connections[i].value;
      var failure := monitor.MessageSent(version, message, now);
      forall j | 0 <= j < |connections| && j != i
        ensures connections[j].value.Valid() && Views()[j] == old(Views())[j]
      {
        assert Apart(connections[i].value, connections[j].value);
      }
    }

    /** Monitor `i` handles a received message; a parse failure is swallowed. */
    method ReceiveAt(i: nat, version: ClientVersion, message: seq<u8>, now: int) returns (r: Result<Option<PingSample>>)
      requires Valid() && i < |connections|
      modifies connections[i].value, connections[i].value.keepAliveHandler, connections[i].value.ipcHandler
      ensures Valid()
      ensures (Views()[i].value, r) == OnReceived(old(Views())[i].value, version, message, now)
      ensures Views() == old(Views())[i := Entry(connections[i].key, Views()[i].value)]
    {
      var monitor := connections[i].value;
      r := monitor.MessageReceived(version, message, now);
      forall j | 0 <= j < |connections| && j != i
        ensures connections[j].value.Valid() && Views()[j] == old(Views())[j]
      {
        assert Apart(connections[i].value, connections[j].value);
      }
    }

    /** After `MonitorFor`, its monitor sits at the lookup's position and holds
      * the view the lookup gave. */
    lemma Handed(start: Views, conn: string, now: int, i: nat, before: Views)
      requires Valid() && DistinctKeys(start) && before == Views()
      requires i < |connections| && connections[i].key == conn
      requires before == Put(start, conn, GetOr(start, conn, NewView(now)))
      ensures Find(before, conn) == i
      ensures connections[i].value.Snapshot() == GetOr(start, conn, NewView(now))
    {
      FindSameKeys(connections, before, conn);
      FindDistinct(connections, conn, i);
      PutGet(start, conn, GetOr(start, conn, NewView(now)), conn, NewView(now));
    }

    /** The monitor under `conn`, created and registered when there is none. */
    method MonitorFor(conn: string, now: int) returns (i: nat)
      requires Valid()
      modifies this
      ensures Valid() && currentPing == old(currentPing)
      ensures i < |connections| && connections[i].key == conn
      ensures old(Find(connections, conn)) >= 0 ==> connections == old(connections)
      ensures old(Find(connections, conn)) < 0 ==>
                && connections == old(connections) + [connections[i]]
                && fresh(connections[i].value) && fresh(connections[i].value.keepAliveHandler) && fresh(connections[i].value.ipcHandler)
      ensures Views() == Put(old(Views()), conn, GetOr(old(Views()), conn, NewView(now)))
    {
      ghost var before := Views();
      FindSameKeys(connections, before, conn);
      var found := Find(connections, conn);
      if found >= 0 {
        assert before[found := Entry(conn, before[found].value)] == before;
        return found;
      }
      i := Register(conn, now);
    }

    /** A new monitor for `conn`, registered last. */
    method Register(conn: string, now: int) returns (i: nat)
      requires Valid() && Find(connections, conn) < 0
      modifies this
      ensures Valid() && currentPing == old(currentPing)
      ensures i < |connections| && connections[i].key == conn
      ensures connections == old(connections) + [connections[i]]
      ensures fresh(connections[i].value) && fresh(connections[i].value.keepAliveHandler) && fresh(connections[i].value.ipcHandler)
      ensures Views() == old(Views()) + [Entry(conn, NewView(now))]
    {
      ghost var before := Views();
      var monitor := new PerConnectionMonitor(now);
      assert Well(connections) && ViewsOf(connections) == before;
      var cs := connections + [Entry(conn, monitor)];
      WellAppend(connections, Entry(conn, monitor));
      ViewsOfAppend(connections, Entry(conn, monitor));
      connections := cs;
      i := |cs| - 1;
    }
  }
}
