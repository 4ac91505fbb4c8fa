/**
 * `PerConnectionMonitor`: one connection's handlers, the time it was last
 * active, and a five-second window of latency samples whose minimum is the
 * connection's current ping.
 *
 * The segment header at the start of each message decides the handler: on
 * the way out, keep-alive (7) and IPC (3); on the way in, keep-alive (8)
 * and IPC (3). Anything else is ignored. A sample from either handler goes
 * into the window, and the new minimum is announced; the announcement is
 * the returned `Option`.
 *
 * The current client version is a parameter. Times are milliseconds passed
 * in as `now`; the source takes `LastActivity` from the local clock while
 * the registry compares it against the UTC clock, which is not modelled.
 */
module Monitor {
  import opened Bytes
  import opened Def
  import opened Packets
  import opened Wrappers
  import opened PingSamples
  import opened Dicts
  import KeepAlive
  import Ipc

  const WindowSize: nat := 5000

  // ---------------------------------------------------------------------
  // The sample window (`SortedDictionary<long, double>`)

  /** Samples by the time they were taken, in ascending key order. */
  type Window = seq<Entry<int, int>>

  predicate Sorted(w: Window) {
    forall i, j :: 0 <= i < j < |w| ==> w[i].key < w[j].key
  }

  /** The window holds `v` under key `k`. */
  predicate Holds(w: Window, k: int, v: int) {
    exists i :: 0 <= i < |w| && w[i] == Entry(k, v)
  }

  /** `_records[k] = v`: insert in key order, or replace the value under `k`. */
  function Insert(w: Window, k: int, v: int): Window
    decreases |w|
  {
    if |w| == 0 then [Entry(k, v)]
    else if w[0].key == k then [Entry(k, v)] + w[1..]
    else if k < w[0].key then [Entry(k, v)] + w
    else [w[0]] + Insert(w[1..], k, v)
  }

  /** Removing the keys taken from the front while they are below `left`. */
  function DropBefore(w: Window, left: int): Window
    decreases |w|
  {
    if |w| > 0 && w[0].key < left then DropBefore(w[1..], left) else w
  }

  /** `Values.Min()`: the smallest value in the window. */
  function MinValue(w: Window): (m: int)
    requires |w| > 0
    ensures exists i :: 0 <= i < |w| && w[i].value == m
    ensures forall i :: 0 <= i < |w| ==> m <= w[i].value
    decreases |w|
  {
    if |w| == 1 then w[0].value
    else
      var rest := MinValue(w[1..]);
      assert forall i :: 1 <= i < |w| ==> w[1..][i - 1] == w[i];
      if w[0].value <= rest then w[0].value else rest
  }

  lemma {:induction false} SortedTail(w: Window)
    requires Sorted(w) && |w| > 0
    ensures Sorted(w[1..])
    ensures forall i :: 0 <= i < |w| - 1 ==> w[1..][i] == w[i + 1]
  {
  }

  /** Insertion keeps the keys sorted and holds `v` under `k` and everything
    * else as before. */
  lemma {:induction false} InsertHolds(w: Window, k: int, v: int)
    requires Sorted(w)
    ensures Sorted(Insert(w, k, v))
    ensures forall j, u :: Holds(Insert(w, k, v), j, u) <==> (j == k && u == v) || (j != k && Holds(w, j, u))
    decreases |w|
  {
    if |w| == 0 {
      assert Insert(w, k, v)[0] == Entry(k, v);
    } else if w[0].key == k {
      InsertReplaces(w, k, v);
    } else if k < w[0].key {
      InsertInFront(w, k, v);
    } else {
      SortedTail(w);
      InsertHolds(w[1..], k, v);
      InsertBehind(w, k, v);
    }
  }

  lemma {:induction false} InsertReplaces(w: Window, k: int, v: int)
    requires Sorted(w) && |w| > 0 && w[0].key == k
    ensures Sorted(Insert(w, k, v))
    ensures forall j, u :: Holds(Insert(w, k, v), j, u) <==> (j == k && u == v) || (j != k && Holds(w, j, u))
  {
    var r := Insert(w, k, v);
    assert r == w[0 := Entry(k, v)];
    forall j, u
      ensures Holds(r, j, u) <==> (j == k && u == v) || (j != k && Holds(w, j, u))
    {
      if Holds(w, j, u) {
        var i :| 0 <= i < |w| && w[i] == Entry(j, u);
        if i > 0 { assert r[i] == w[i]; }
      }
      if Holds(r, j, u) {
        var i :| 0 <= i < |r| && r[i] == Entry(j, u);
        if i > 0 { assert w[i] == r[i]; }
      }
      assert Holds(r, k, v) by { assert r[0] == Entry(k, v); }
    }
  }

  lemma {:induction false} InsertInFront(w: Window, k: int, v: int)
    requires Sorted(w) && |w| > 0 && k < w[0].key
    ensures Sorted(Insert(w, k, v))
    ensures forall j, u :: Holds(Insert(w, k, v), j, u) <==> (j == k && u == v) || (j != k && Holds(w, j, u))
  {
    var r := Insert(w, k, v);
    assert r == [Entry(k, v)] + w;
    forall j, u
      ensures Holds(r, j, u) <==> (j == k && u == v) || (j != k && Holds(w, j, u))
    {
      if Holds(w, j, u) {
        var i :| 0 <= i < |w| && w[i] == Entry(j, u);
        assert r[i + 1] == w[i];
        assert w[0].key <= j;
      }
      if Holds(r, j, u) {
        var i :| 0 <= i < |r| && r[i] == Entry(j, u);
        if i > 0 { assert w[i - 1] == r[i]; }
      }
      assert Holds(r, k, v) by { assert r[0] == Entry(k, v); }
    }
  }

  lemma {:induction false} InsertBehind(w: Window, k: int, v: int)
    requires Sorted(w) && |w| > 0 && w[0].key < k
    requires Sorted(Insert(w[1..], k, v))
    requires forall j, u :: Holds(Insert(w[1..], k, v), j, u) <==> (j == k && u == v) || (j != k && Holds(w[1..], j, u))
    ensures Sorted(Insert(w, k, v))
    ensures forall j, u :: Holds(Insert(w, k, v), j, u) <==> (j == k && u == v) || (j != k && Holds(w, j, u))
  {
    var t := w[1..];
    var rt := Insert(t, k, v);
    assert w == [w[0]] + t;
    assert Insert(w, k, v) == [w[0]] + rt;
    HoldsConcat([w[0]], t);
    HoldsConcat([w[0]], rt);
    forall i | 0 <= i < |rt|
      ensures w[0].key < rt[i].key
    {
      assert Holds(rt, rt[i].key, rt[i].value);
      if rt[i].key != k {
        assert Holds(w, rt[i].key, rt[i].value);
        HeadKeyLeast(w, rt[i].key, rt[i].value);
        assert !Holds([w[0]], rt[i].key, rt[i].value);
      }
    }
    SortedCons(w[0], rt);
  }

  /** The samples of a concatenation are those of its two parts. */
  lemma {:induction false} HoldsConcat(a: Window, b: Window)
    ensures forall j, u :: Holds(a + b, j, u) <==> Holds(a, j, u) || Holds(b, j, u)
    ensures |a| == 1 ==> forall j, u :: Holds(a, j, u) <==> a[0] == Entry(j, u)
  {
    forall j, u
      ensures Holds(a + b, j, u) <==> Holds(a, j, u) || Holds(b, j, u)
    {
      if Holds(a + b, j, u) {
        var i :| 0 <= i < |a + b| && (a + b)[i] == Entry(j, u);
        if i < |a| { assert a[i] == (a + b)[i]; } else { assert b[i - |a|] == (a + b)[i]; }
      }
      if Holds(a, j, u) {
        var i :| 0 <= i < |a| && a[i] == Entry(j, u);
        assert (a + b)[i] == a[i];
      }
      if Holds(b, j, u) {
        var i :| 0 <= i < |b| && b[i] == Entry(j, u);
        assert (a + b)[i + |a|] == b[i];
      }
    }
  }

  /** In a sorted window, the first key is the least. */
  lemma {:induction false} HeadKeyLeast(w: Window, j: int, u: int)
    requires Sorted(w) && Holds(w, j, u)
    ensures w[0].key <= j
    ensures j == w[0].key ==> w[0] == Entry(j, u)
  {
    var i :| 0 <= i < |w| && w[i] == Entry(j, u);
  }

  lemma {:induction false} SortedCons(e: Entry<int, int>, w: Window)
    requires Sorted(w) && forall i :: 0 <= i < |w| ==> e.key < w[i].key
    ensures Sorted([e] + w)
  {
    var r := [e] + w;
    forall i, j | 0 <= i < j < |r|
      ensures r[i].key < r[j].key
    {
      assert r[j] == w[j - 1];
      if i > 0 { assert r[i] == w[i - 1]; }
    }
  }

  /** Whatever the order of the keys, an insertion holds the new sample. */
  lemma {:induction false} InsertHas(w: Window, k: int, v: int)
    ensures Holds(Insert(w, k, v), k, v)
    decreases |w|
  {
    var r := Insert(w, k, v);
    if |w| == 0 || w[0].key == k || k < w[0].key {
      assert r[0] == Entry(k, v);
    } else {
      InsertHas(w[1..], k, v);
      var i :| 0 <= i < |Insert(w[1..], k, v)| && Insert(w[1..], k, v)[i] == Entry(k, v);
      assert r[i + 1] == Entry(k, v);
    }
  }

  /** Dropping the front below `left` never removes a sample at or after `left`. */
  lemma {:induction false} DropBeforeKeeps(w: Window, left: int, k: int, v: int)
    requires Holds(w, k, v) && k >= left
    ensures |DropBefore(w, left)| > 0
    decreases |w|
  {
    if w[0].key < left {
      var i :| 0 <= i < |w| && w[i] == Entry(k, v);
      assert w[1..][i - 1] == w[i];
      DropBeforeKeeps(w[1..], left, k, v);
    }
  }

  /** With sorted keys, dropping the front below `left` keeps exactly the
    * samples at or after `left`. */
  lemma {:induction false} DropBeforeHolds(w: Window, left: int)
    requires Sorted(w)
    ensures Sorted(DropBefore(w, left))
    ensures forall j, u :: Holds(DropBefore(w, left), j, u) <==> Holds(w, j, u) && j >= left
    decreases |w|
  {
    if |w| > 0 && w[0].key < left {
      SortedTail(w);
      var t := w[1..];
      DropBeforeHolds(t, left);
      forall j, u
        ensures (Holds(t, j, u) && j >= left) <==> (Holds(w, j, u) && j >= left)
      {
        if Holds(t, j, u) && j >= left {
          var i :| 0 <= i < |t| && t[i] == Entry(j, u);
          assert w[i + 1] == t[i];
        }
        if Holds(w, j, u) && j >= left {
          var i :| 0 <= i < |w| && w[i] == Entry(j, u);
          assert i > 0;
          assert t[i - 1] == w[i];
        }
      }
    } else {
      forall j, u | Holds(w, j, u)
        ensures j >= left
      {
        var i :| 0 <= i < |w| && w[i] == Entry(j, u);
        assert w[0].key <= w[i].key;
      }
    }
  }

  /** The window after a sample taken at `now`. */
  function Slide(w: Window, now: int, ttl: int): Window {
    DropBefore(Insert(w, now, ttl), now - WindowSize)
  }

  /** After a sample the window holds it, holds exactly the earlier samples
    * of the last five seconds besides it, and its minimum is at most the sample. */
  lemma {:induction false} SlideHolds(w: Window, now: int, ttl: int)
    requires Sorted(w)
    ensures Sorted(Slide(w, now, ttl)) && |Slide(w, now, ttl)| > 0
    ensures forall j, u :: Holds(Slide(w, now, ttl), j, u) <==>
              (j == now && u == ttl) || (j != now && j >= now - WindowSize && Holds(w, j, u))
    ensures MinValue(Slide(w, now, ttl)) <= ttl
  {
    InsertHolds(w, now, ttl);
    DropBeforeHolds(Insert(w, now, ttl), now - WindowSize);
    var r := Slide(w, now, ttl);
    assert Holds(r, now, ttl);
    var i :| 0 <= i < |r| && r[i] == Entry(now, ttl);
    assert MinValue(r) <= r[i].value;
  }

  // ---------------------------------------------------------------------
  // The monitor as a value

  /** Everything a monitor holds: its two handlers' state, the window, the
    * current ping and the time of the last message. */
  datatype View = View(keepAlive: KeepAlive.State, pingRecords: Ipc.Records, records: Window,
                       currentPing: int, lastActivity: int)

  /** A new monitor; `LastActivity` is still the default time until the first message. */
  function NewView(now: int): View {
    View(KeepAlive.Initial(now), map[], [], 0, 0)
  }

  /** `HandleNewSample`: the sample enters the window, the minimum becomes
    * the current ping and is announced with the sample's time. */
  function NewSample(v: View, s: PingSample): (View, PingSample) {
    var w := Slide(v.records, s.sampleTime, s.millis);
    InsertHas(v.records, s.sampleTime, s.millis);
    DropBeforeKeeps(Insert(v.records, s.sampleTime, s.millis), s.sampleTime - WindowSize, s.sampleTime, s.millis);
    (v.(records := w, currentPing := MinValue(w)), PingSample(MinValue(w), s.sampleTime))
  }

  /** `MessageSent`: stamp the activity, then hand the message to the
    * handler its segment type names. */
  function OnSent(v: View, version: ClientVersion, message: seq<u8>, now: int): (View, Result<()>) {
    var stamped := v.(lastActivity := now);
    match ParseSegmentHeader(message, 0)
    case Failure(e) => (stamped, Failure(e))
    case Ok(Parsed(headerLen, header)) =>
      if header.segmentType == ClientSegmentKeepAlive then
        match KeepAlive.Sent(v.keepAlive, message, headerLen, now)
        case Failure(e) => (stamped, Failure(e))
        case Ok(st) => (stamped.(keepAlive := st), Ok(()))
      else if header.segmentType == ClientSegmentIpc then
        match Ipc.Sent(v.pingRecords, Ipc.CurrentIpcType(version), message, headerLen, now)
        case Failure(e) => (stamped, Failure(e))
        case Ok(recs) => (stamped.(pingRecords := recs), Ok(()))
      else (stamped, Ok(()))
  }

  /** `MessageReceived`: stamp the activity, hand the message to its handler,
    * and take in the sample it gives, if any. */
  function OnReceived(v: View, version: ClientVersion, message: seq<u8>, now: int): (View, Result<Option<PingSample>>) {
    var stamped := v.(lastActivity := now);
    match ParseSegmentHeader(message, 0)
    case Failure(e) => (stamped, Failure(e))
    case Ok(Parsed(headerLen, header)) =>
      if header.segmentType == ServerSegmentKeepAlive then
        match KeepAlive.Recv(v.keepAlive, message, headerLen, now)
        case Failure(e) => (stamped, Failure(e))
        case Ok(None) => (stamped, Ok(None))
        case Ok(Some(s)) => var (after, n) := NewSample(stamped, s); (after, Ok(Some(n)))
      else if header.segmentType == ServerSegmentIpc then
        match Ipc.Recv(v.pingRecords, Ipc.CurrentIpcType(version), message, headerLen, now)
        case Failure(e) => (stamped, Failure(e))
        case Ok((recs, None)) => (stamped.(pingRecords := recs), Ok(None))
        case Ok((recs, Some(s))) => var (after, n) := NewSample(stamped.(pingRecords := recs), s); (after, Ok(Some(n)))
      else (stamped, Ok(None))
  }

  /** Every message stamps the activity time, whether or not it parses. */
  lemma {:induction false} ActivityStamped(v: View, version: ClientVersion, message: seq<u8>, now: int)
    ensures OnSent(v, version, message, now).0.lastActivity == now
    ensures OnReceived(v, version, message, now).0.lastActivity == now
  {
    match ParseSegmentHeader(message, 0)
    case Failure(_) =>
    case Ok(Parsed(headerLen, header)) =>
      if header.segmentType == ServerSegmentKeepAlive {
        match KeepAlive.Recv(v.keepAlive, message, headerLen, now)
        case Failure(_) =>
        case Ok(None) =>
        case Ok(Some(s)) =>
      } else if header.segmentType == ServerSegmentIpc {
        match Ipc.Recv(v.pingRecords, Ipc.CurrentIpcType(version), message, headerLen, now)
        case Failure(_) =>
        case Ok((_, None)) =>
        case Ok((_, Some(s))) =>
      }
  }

  /** A message that is too short for a segment header, or whose size field
    * exceeds 256 KiB, fails before any handler sees it. */
  lemma {:induction false} BadHeaderFails(v: View, version: ClientVersion, message: seq<u8>, now: int)
    requires |message| < 16 || ReadLE(message, 0, 4) > MaxSegmentSize
    ensures OnSent(v, version, message, now) == (v.(lastActivity := now), Failure(if |message| < 16 then Incomplete else Malformed))
    ensures OnReceived(v, version, message, now) == (v.(lastActivity := now), Failure(if |message| < 16 then Incomplete else Malformed))
  {
  }

  /** A valid segment whose type no handler claims changes nothing but the
    * activity time; type 7 is claimed only outbound and type 8 only inbound. */
  lemma {:induction false} OtherSegmentsIgnored(v: View, version: ClientVersion, message: seq<u8>, now: int)
    requires |message| >= 16 && ReadLE(message, 0, 4) <= MaxSegmentSize
    ensures ReadLE(message, 12, 2) != 7 && ReadLE(message, 12, 2) != 3 ==> OnSent(v, version, message, now) == (v.(lastActivity := now), Ok(()))
    ensures ReadLE(message, 12, 2) != 8 && ReadLE(message, 12, 2) != 3 ==> OnReceived(v, version, message, now) == (v.(lastActivity := now), Ok(None))
  {
    assert ParseSegmentHeader(message, 0).Ok?;
  }

  /** An outbound keep-alive segment reaches the keep-alive handler with the
    * payload after the 16-byte header, and an outbound IPC segment reaches
    * the IPC handler with the opcodes of the client version. Sending never
    * yields a sample and never touches the window. */
  lemma {:induction false} SentDispatch(v: View, version: ClientVersion, message: seq<u8>, now: int)
    requires |message| >= 16 && ReadLE(message, 0, 4) <= MaxSegmentSize
    ensures var (after, r) := OnSent(v, version, message, now);
            && after.records == v.records && after.currentPing == v.currentPing
            && (ReadLE(message, 12, 2) == 7 ==>
                  match KeepAlive.Sent(v.keepAlive, message, 16, now)
                  case Failure(e) => r == Failure(e) && after.keepAlive == v.keepAlive
                  case Ok(st) => r == Ok(()) && after.keepAlive == st)
            && (ReadLE(message, 12, 2) == 3 ==>
                  match Ipc.Sent(v.pingRecords, Ipc.CurrentIpcType(version), message, 16, now)
                  case Failure(e) => r == Failure(e) && after.pingRecords == v.pingRecords
                  case Ok(recs) => r == Ok(()) && after.pingRecords == recs)
  {
    assert ParseSegmentHeader(message, 0).Ok?;
  }

  /** An inbound keep-alive segment reaches the keep-alive handler, and an
    * inbound IPC segment the IPC handler with the opcodes of the client
    * version, each with the payload after the 16-byte header. A handler's
    * failure is returned with only the activity time changed, the IPC
    * handler's records are kept whether or not it yields a sample, and a
    * handler's sample enters the window. Other segments change only the
    * activity time. */
  lemma {:induction false} ReceivedDispatch(v: View, version: ClientVersion, message: seq<u8>, now: int)
    requires |message| >= 16 && ReadLE(message, 0, 4) <= MaxSegmentSize
    ensures var after, r := OnReceived(v, version, message, now).0, OnReceived(v, version, message, now).1;
            var stamped := v.(lastActivity := now);
            && (ReadLE(message, 12, 2) == 8 ==>
                  match KeepAlive.Recv(v.keepAlive, message, 16, now)
                  case Failure(e) => r == Failure(e) && after == stamped
                  case Ok(None) => r == Ok(None) && after == stamped
                  case Ok(Some(s)) => r == Ok(Some(NewSample(stamped, s).1)) && after == NewSample(stamped, s).0)
            && (ReadLE(message, 12, 2) == 3 ==>
                  match Ipc.Recv(v.pingRecords, Ipc.CurrentIpcType(version), message, 16, now)
                  case Failure(e) => r == Failure(e) && after == stamped
                  case Ok((recs, None)) => r == Ok(None) && after == stamped.(pingRecords := recs)
                  case Ok((recs, Some(s))) =>
                    r == Ok(Some(NewSample(stamped.(pingRecords := recs), s).1))
                    && after == NewSample(stamped.(pingRecords := recs), s).0)
            && (ReadLE(message, 12, 2) != 8 && ReadLE(message, 12, 2) != 3 ==> r == Ok(None) && after == stamped)
  {
    assert ParseSegmentHeader(message, 0).Ok?;
  }

  /** An announced sample is the minimum of the new window, which holds the
    * handler's sample under its time and keeps only samples of the last
    * five seconds; without a sample the window and current ping stay. */
  lemma {:induction false} ReceivedSample(v: View, version: ClientVersion, message: seq<u8>, now: int)
    requires Sorted(v.records)
    ensures var after, r := OnReceived(v, version, message, now).0, OnReceived(v, version, message, now).1;
            && Sorted(after.records)
            && (r.Ok? && r.value.Some? ==>
                  && r.value.value == PingSample(after.currentPing, now)
                  && |after.records| > 0 && after.currentPing == MinValue(after.records)
                  && (exists ttl :: Holds(after.records, now, ttl) && after.currentPing <= ttl)
                  && forall j, u :: Holds(after.records, j, u) ==> j >= now - WindowSize)
            && (!(r.Ok? && r.value.Some?) ==> after.records == v.records && after.currentPing == v.currentPing)
  {
    var stamped := v.(lastActivity := now);
    match ParseSegmentHeader(message, 0)
    case Failure(_) =>
    case Ok(Parsed(headerLen, header)) =>
      if header.segmentType == ServerSegmentKeepAlive {
        match KeepAlive.Recv(v.keepAlive, message, headerLen, now)
        case Failure(_) =>
        case Ok(None) =>
        case Ok(Some(s)) =>
          SampleEntered(stamped, s);
          assert OnReceived(v, version, message, now) == (NewSample(stamped, s).0, Ok(Some(NewSample(stamped, s).1)));
      } else if header.segmentType == ServerSegmentIpc {
        match Ipc.Recv(v.pingRecords, Ipc.CurrentIpcType(version), message, headerLen, now)
        case Failure(_) =>
        case Ok((_, None)) =>
        case Ok((recs, Some(s))) =>
          var w := stamped.(pingRecords := recs);
          SampleEntered(w, s);
          assert OnReceived(v, version, message, now) == (NewSample(w, s).0, Ok(Some(NewSample(w, s).1)));
      }
  }

  lemma {:induction false} SampleEntered(v: View, s: PingSample)
    requires Sorted(v.records)
    ensures var (after, n) := NewSample(v, s);
            && Sorted(after.records) && |after.records| > 0
            && n == PingSample(after.currentPing, s.sampleTime) && after.currentPing == MinValue(after.records)
            && Holds(after.records, s.sampleTime, s.millis) && after.currentPing <= s.millis
            && (forall j, u :: Holds(after.records, j, u) ==> j >= s.sampleTime - WindowSize)
            && after.lastActivity == v.lastActivity && after.keepAlive == v.keepAlive && after.pingRecords == v.pingRecords
  {
    SlideHolds(v.records, s.sampleTime, s.millis);
  }

  // ---------------------------------------------------------------------
  // The monitor object

  class PerConnectionMonitor {
    const keepAliveHandler: KeepAlive.KeepAliveHandler
    const ipcHandler: Ipc.IpcHandler
    var records: Window
    var currentPing: int
    var lastActivity: int

    function Snapshot(): View
      reads this, keepAliveHandler, ipcHandler
    {
      View(keepAliveHandler.Snapshot(), ipcHandler.pingRecords, records, currentPing, lastActivity)
    }

    predicate Valid()
      reads this
    {
      Sorted(records)
    }

    constructor(now: int)
      ensures Valid() && Snapshot() == NewView(now)
      ensures fresh(keepAliveHandler) && fresh(ipcHandler)
    {
      keepAliveHandler := new KeepAlive.KeepAliveHandler(now);
      ipcHandler := new Ipc.IpcHandler();
      records := [];
      currentPing := 0;
      lastActivity := 0;
    }

    method MessageSent(version: ClientVersion, message: seq<u8>, now: int) returns (r: Result<()>)
      requires Valid()
      modifies this, keepAliveHandler, ipcHandler
      ensures Valid()
      ensures (Snapshot(), r) == OnSent(old(Snapshot()), version, message, now)
    {
      lastActivity := now;
      var header := ParseSegmentHeader(message, 0);
      if header.Failure? {
        return Failure(header.error);
      }
      var headerLen := header.value.consumed;
      if header.value.value.segmentType == ClientSegmentKeepAlive {
        r := keepAliveHandler.ClientSent(message, headerLen, now);
      } else if header.value.value.segmentType == ClientSegmentIpc {
        r := ipcHandler.ClientSent(Ipc.CurrentIpcType(version), message, headerLen, now);
      } else {
        r := Ok(());
      }
    }

    method MessageReceived(version: ClientVersion, message: seq<u8>, now: int) returns (r: Result<Option<PingSample>>)
      requires Valid()
      modifies this, keepAliveHandler, ipcHandler
      ensures Valid()
      ensures (Snapshot(), r) == OnReceived(old(Snapshot()), version, message, now)
    {
      lastActivity := now;
      var header := ParseSegmentHeader(message, 0);
      if header.Failure? {
        return Failure(header.error);
      }
      var headerLen := header.value.consumed;
      var sample: Result<Option<PingSample>>;
      if header.value.value.segmentType == ServerSegmentKeepAlive {
        sample := keepAliveHandler.ClientRecv(message, headerLen, now);
      } else if header.value.value.segmentType == ServerSegmentIpc {
        sample := ipcHandler.ClientRecv(Ipc.CurrentIpcType(version), message, headerLen, now);
      } else {
        return Ok(None);
      }
      if sample.Failure? {
        return Failure(sample.error);
      }
      if sample.value.None? {
        return Ok(None);
      }
      var n := HandleNewSample(sample.value.value);
      r := Ok(Some(n));
    }

    method HandleNewSample(s: PingSample) returns (n: PingSample)
      requires Valid()
      modifies this
      ensures Valid()
      ensures (Snapshot(), n) == NewSample(old(Snapshot()), s)
    {
      SlideHolds(records, s.sampleTime, s.millis);
      records := Slide(records, s.sampleTime, s.millis);
      currentPing := MinValue(records);
      n := PingSample(currentPing, s.sampleTime);
    }
  }
}
