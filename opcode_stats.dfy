/**
 * The statistics behind the ping opcode detector: per ping index, how often
 * each opcode was sent and received; per (send opcode, receive opcode) pair,
 * the list of `PingIndex` counts it was seen with; each pair's average
 * confidence; and the pair with the highest average.
 *
 * Bias and confidence are `double`s in the source; here they are exact reals.
 */
module OpCodeStats {
  import opened Bytes
  import opened Dicts
  import opened Wrappers

  /** `PingOpCode`: a (client opcode, server opcode) candidate. Its `Equals`
    * compares both components, which is this datatype's equality. */
  datatype PingOpCode = PingOpCode(client: u16, server: u16)

  // ---------------------------------------------------------------------
  // Bias and confidence of one index

  /** `PingIndex`: the send count of one opcode and the receive count of
    * another, under the same ping index. */
  datatype PingIndex = PingIndex(sendCount: nat, recvCount: nat)

  /** `PingIndex.Bias`: 2sr / (s² + r²), the squared cosine of the angle
    * between (1, 1) and (s, r), times two, minus one. */
  function Bias(p: PingIndex): real
    requires p.sendCount + p.recvCount > 0
  {
    var s, r := p.sendCount as real, p.recvCount as real;
    SquaresPositive(s, r);
    2.0 * s * r / (s * s + r * r)
  }

  lemma {:induction false} SquaresPositive(s: real, r: real)
    requires s >= 0.0 && r >= 0.0 && s + r > 0.0
    ensures s * s + r * r > 0.0
  {
    if s > 0.0 {
      assert s * s > 0.0;
    } else {
      assert r * r > 0.0;
    }
  }

  /** `PingIndex.Confidence`: (1 / (s + r − 1.5))² · Bias. */
  function Confidence(p: PingIndex): real
    requires p.sendCount + p.recvCount > 0
  {
    var d := (p.sendCount + p.recvCount) as real - 1.5;
    (1.0 / d) * (1.0 / d) * Bias(p)
  }

  /** The bias lies in [0, 1]; it is 0 exactly when one count is 0 and 1
    * exactly when the counts are equal. */
  lemma {:induction false} BiasBounds(p: PingIndex)
    requires p.sendCount + p.recvCount > 0
    ensures 0.0 <= Bias(p) <= 1.0
    ensures Bias(p) == 0.0 <==> p.sendCount == 0 || p.recvCount == 0
    ensures Bias(p) == 1.0 <==> p.sendCount == p.recvCount
  {
    var s, r := p.sendCount as real, p.recvCount as real;
    var q := s * s + r * r;
    var n := 2.0 * s * r;
    SquaresPositive(s, r);
    SquareSign(s - r);
    assert q - n == (s - r) * (s - r);
    ProductSign(s, r);
    assert Bias(p) == n / q;
    Quotient(n, q);
  }

  lemma {:induction false} SquareSign(x: real)
    ensures x * x >= 0.0
    ensures x != 0.0 ==> x * x > 0.0
  {
    if x < 0.0 {
      var y := -x;
      assert y * y > 0.0;
      assert x * x == y * y;
    }
  }

  lemma {:induction false} ProductSign(x: real, y: real)
    requires x >= 0.0 && y >= 0.0
    ensures 2.0 * x * y >= 0.0
    ensures 2.0 * x * y == 0.0 <==> x == 0.0 || y == 0.0
  {
    if x > 0.0 && y > 0.0 {
      assert x * y > 0.0;
    }
  }

  lemma {:induction false} Quotient(n: real, q: real)
    requires q > 0.0 && 0.0 <= n <= q
    ensures 0.0 <= n / q <= 1.0
    ensures n / q == 0.0 <==> n == 0.0
    ensures n / q == 1.0 <==> n == q
  {
    assert (n / q) * q == n;
  }

  /** With at least one send and one receive the confidence is positive;
    * with either count 0 it is 0. */
  lemma {:induction false} ConfidenceSign(p: PingIndex)
    requires p.sendCount + p.recvCount > 0
    ensures Confidence(p) >= 0.0
    ensures Confidence(p) > 0.0 <==> p.sendCount >= 1 && p.recvCount >= 1
  {
    BiasBounds(p);
    var d := (p.sendCount + p.recvCount) as real - 1.5;
    assert d != 0.0;
    var e := 1.0 / d;
    assert e * d == 1.0;
    assert e != 0.0;
    SquareSign(e);
    var w := e * e;
    assert Confidence(p) == w * Bias(p);
    Scaled(w, Bias(p));
  }

  lemma {:induction false} Scaled(w: real, b: real)
    requires w > 0.0 && b >= 0.0
    ensures w * b >= 0.0
    ensures w * b > 0.0 <==> b > 0.0
  {
    if b > 0.0 {
      assert w * b > 0.0;
    }
  }

  /** An index whose opcode pair occurred more often is less likely a ping:
    * for balanced counts the confidence falls as the counts grow. */
  lemma {:induction false} ConfidenceFalls(n: nat, m: nat)
    requires 1 <= n < m
    ensures Confidence(PingIndex(m, m)) < Confidence(PingIndex(n, n))
  {
    BiasBounds(PingIndex(n, n));
    BiasBounds(PingIndex(m, m));
    var dn := (n + n) as real - 1.5;
    var dm := (m + m) as real - 1.5;
    assert 0.0 < dn < dm;
    var en, em := 1.0 / dn, 1.0 / dm;
    Reciprocal(dn, dm);
    assert 0.0 < em < en;
    SquareGrows(em, en);
    assert Confidence(PingIndex(m, m)) == em * em * 1.0;
    assert Confidence(PingIndex(n, n)) == en * en * 1.0;
  }

  lemma {:induction false} Reciprocal(a: real, b: real)
    requires 0.0 < a < b
    ensures 0.0 < 1.0 / b < 1.0 / a
  {
    assert (1.0 / a) * a == 1.0;
    assert (1.0 / b) * b == 1.0;
    assert 1.0 / a - 1.0 / b == (b - a) / (a * b);
    assert a * b > 0.0;
  }

  lemma {:induction false} SquareGrows(a: real, b: real)
    requires 0.0 < a < b
    ensures a * a < b * b
  {
    assert b * b - a * a == (b - a) * (b + a);
    assert (b - a) * (b + a) > 0.0;
  }

  // ---------------------------------------------------------------------
  // Averages (LINQ `Average`)

  function Sum(xs: seq<real>): real
    decreases |xs|
  {
    if |xs| == 0 then 0.0 else Sum(xs[..|xs| - 1]) + xs[|xs| - 1]
  }

  function Mean(xs: seq<real>): real
    requires |xs| > 0
  {
    Sum(xs) / (|xs| as real)
  }

  lemma {:induction false} SumPositive(xs: seq<real>)
    requires |xs| > 0 && forall i :: 0 <= i < |xs| ==> xs[i] > 0.0
    ensures Sum(xs) > 0.0
    decreases |xs|
  {
    if |xs| > 1 {
      SumPositive(xs[..|xs| - 1]);
    }
  }

  /** The average of positive values is positive. */
  lemma {:induction false} MeanPositive(xs: seq<real>)
    requires |xs| > 0 && forall i :: 0 <= i < |xs| ==> xs[i] > 0.0
    ensures Mean(xs) > 0.0
  {
    SumPositive(xs);
  }

  // ---------------------------------------------------------------------
  // Counting sends and receives per ping index (`OpCodeStatistic`)

  /** An `OpCodeHolder`'s two counters. */
  datatype Counts = Counts(sendCount: nat, recvCount: nat)

  /** `OpCodeStatistic.OpCodes`: opcode to its counters, in first-seen order. */
  type Holders = seq<Entry<u16, Counts>>

  /** The `statistics` dictionary: ping index to its opcodes, in first-seen order. */
  type StatTable = seq<Entry<u64, Holders>>

  /** `OnSend` / `OnRecv` through `GetOpCode`: one more send or receive of `op`,
    * with a zeroed holder added first when `op` is new. */
  function Bump(hs: Holders, op: u16, send: bool): Holders {
    var c := GetOr(hs, op, Counts(0, 0));
    Put(hs, op, if send then Counts(c.sendCount + 1, c.recvCount) else Counts(c.sendCount, c.recvCount + 1))
  }

  /** One buffered packet counted under its ping index, with an empty
    * statistic added first when the index is new. */
  function Record(stats: StatTable, index: u64, op: u16, send: bool): StatTable {
    Put(stats, index, Bump(GetOr(stats, index, []), op, send))
  }

  /** The sends (or receives) of `op` recorded under `index`. */
  function Counted(stats: StatTable, index: u64, op: u16, send: bool): nat {
    var c := GetOr(GetOr(stats, index, []), op, Counts(0, 0));
    if send then c.sendCount else c.recvCount
  }

  predicate WellKeyed(stats: StatTable) {
    DistinctKeys(stats) && forall i :: 0 <= i < |stats| ==> DistinctKeys(stats[i].value)
  }

  lemma {:induction false} LookedUpKeyed(stats: StatTable, index: u64)
    requires WellKeyed(stats)
    ensures DistinctKeys(GetOr(stats, index, []))
  {
    var k := Find(stats, index);
    if k >= 0 {
      assert GetOr(stats, index, []) == stats[k].value;
    }
  }

  /** Recording a packet keeps the keys distinct. */
  lemma {:induction false} RecordKeyed(stats: StatTable, index: u64, op: u16, send: bool)
    requires WellKeyed(stats)
    ensures WellKeyed(Record(stats, index, op, send))
  {
    var hs := GetOr(stats, index, []);
    LookedUpKeyed(stats, index);
    var nh := Bump(hs, op, send);
    var c := GetOr(hs, op, Counts(0, 0));
    PutGet(hs, op, if send then Counts(c.sendCount + 1, c.recvCount) else Counts(c.sendCount, c.recvCount + 1), op, Counts(0, 0));
    assert DistinctKeys(nh);
    PutGet(stats, index, nh, index, []);
    var r := Record(stats, index, op, send);
    var pos := Find(stats, index);
    forall j | 0 <= j < |r|
      ensures DistinctKeys(r[j].value)
    {
      if pos < 0 {
        if j < |stats| { assert r[j] == stats[j]; } else { assert r[j].value == nh; }
      } else {
        if j == pos { assert r[j].value == nh; } else { assert r[j] == stats[j]; }
      }
    }
  }

  /** Recording a packet adds one to exactly one counter. */
  lemma {:induction false} RecordCounts(stats: StatTable, index: u64, op: u16, send: bool, i: u64, o: u16, s: bool)
    requires WellKeyed(stats)
    ensures Counted(Record(stats, index, op, send), i, o, s)
         == Counted(stats, i, o, s) + (if i == index && o == op && s == send then 1 else 0)
  {
    var hs := GetOr(stats, index, []);
    var nh := Bump(hs, op, send);
    var r := Record(stats, index, op, send);
    PutGet(stats, index, nh, i, []);
    if i == index {
      assert GetOr(r, i, []) == nh;
      LookedUpKeyed(stats, index);
      BumpCounts(hs, op, send, o, s);
    } else {
      assert GetOr(r, i, []) == GetOr(stats, i, []);
    }
  }

  lemma {:induction false} BumpCounts(hs: Holders, op: u16, send: bool, o: u16, s: bool)
    requires DistinctKeys(hs)
    ensures var c, c' := GetOr(hs, o, Counts(0, 0)), GetOr(Bump(hs, op, send), o, Counts(0, 0));
            (if s then c'.sendCount else c'.recvCount) == (if s then c.sendCount else c.recvCount) + (if o == op && s == send then 1 else 0)
  {
    var c := GetOr(hs, op, Counts(0, 0));
    var c' := if send then Counts(c.sendCount + 1, c.recvCount) else Counts(c.sendCount, c.recvCount + 1);
    PutGet(hs, op, c', o, Counts(0, 0));
  }

  // ---------------------------------------------------------------------
  // Grouping the counts by opcode pair (`pairStatistics`)

  /** The `pairStatistics` dictionary: pair to the indices it was seen with. */
  type PairTable = seq<Entry<PingOpCode, seq<PingIndex>>>

  /** Append `p` to the list of `pair`, creating the list when the pair is new. */
  function AddIndex(t: PairTable, pair: PingOpCode, p: PingIndex): (r: PairTable)
    ensures |r| > 0 && |r| >= |t|
  {
    Put(t, pair, GetOr(t, pair, []) + [p])
  }

  predicate HasSend(hs: Holders) {
    exists j :: 0 <= j < |hs| && hs[j].value.sendCount > 0
  }

  predicate HasRecv(hs: Holders) {
    exists j :: 0 <= j < |hs| && hs[j].value.recvCount > 0
  }

  /** An index under which some opcode was sent and some opcode was received. */
  predicate Matched(hs: Holders) {
    HasSend(hs) && HasRecv(hs)
  }

  /** The inner loop: pair `send` with every opcode of `hs` that was received. */
  function RecvPairs(t: PairTable, send: Entry<u16, Counts>, hs: Holders): (r: PairTable)
    ensures HasRecv(hs) ==> |r| > 0
    ensures !HasRecv(hs) ==> r == t
    decreases |hs|
  {
    if |hs| == 0 then t
    else
      var acc := RecvPairs(t, send, hs[..|hs| - 1]);
      var recv := hs[|hs| - 1];
      assert HasRecv(hs) && recv.value.recvCount == 0 ==> HasRecv(hs[..|hs| - 1]);
      if recv.value.recvCount == 0 then acc
      else AddIndex(acc, PingOpCode(send.key, recv.key), PingIndex(send.value.sendCount, recv.value.recvCount))
  }

  /** The outer loop over the senders in `senders`, each paired against all of `hs`. */
  function SendPairs(t: PairTable, senders: Holders, hs: Holders): (r: PairTable)
    ensures HasSend(senders) && HasRecv(hs) ==> |r| > 0
    ensures !(HasSend(senders) && HasRecv(hs)) ==> r == t
    decreases |senders|
  {
    if |senders| == 0 then t
    else
      var acc := SendPairs(t, senders[..|senders| - 1], hs);
      var send := senders[|senders| - 1];
      assert HasSend(senders) && send.value.sendCount == 0 ==> HasSend(senders[..|senders| - 1]);
      assert !HasSend(senders) ==> !HasSend(senders[..|senders| - 1]);
      if send.value.sendCount == 0 then acc else RecvPairs(acc, send, hs)
  }

  /** The loop over `statistics.Values`: there are no pairs exactly when no
    * index has both a send and a receive. */
  function GroupPairs(stats: StatTable): (r: PairTable)
    ensures |r| == 0 <==> forall k :: 0 <= k < |stats| ==> !Matched(stats[k].value)
    decreases |stats|
  {
    if |stats| == 0 then []
    else
      var front := stats[..|stats| - 1];
      var acc := GroupPairs(front);
      var hs := stats[|stats| - 1].value;
      assert forall k :: 0 <= k < |front| ==> front[k] == stats[k];
      SendPairs(acc, hs, hs)
  }

  /** Every list is non-empty and every index in it has a send and a receive. */
  predicate Scorable(l: seq<PingIndex>) {
    |l| > 0 && forall j :: 0 <= j < |l| ==> l[j].sendCount >= 1 && l[j].recvCount >= 1
  }

  predicate GoodPairs(t: PairTable) {
    DistinctKeys(t) && forall i :: 0 <= i < |t| ==> Scorable(t[i].value)
  }

  lemma {:induction false} AddIndexGood(t: PairTable, pair: PingOpCode, p: PingIndex)
    requires GoodPairs(t) && p.sendCount >= 1 && p.recvCount >= 1
    ensures GoodPairs(AddIndex(t, pair, p))
  {
    var l := GetOr(t, pair, []) + [p];
    var pos := Find(t, pair);
    if pos >= 0 {
      assert GetOr(t, pair, []) == t[pos].value;
    }
    assert Scorable(l);
    PutGet(t, pair, l, pair, []);
    var r := AddIndex(t, pair, p);
    forall j | 0 <= j < |r|
      ensures Scorable(r[j].value)
    {
      if pos < 0 {
        if j < |t| { assert r[j] == t[j]; } else { assert r[j].value == l; }
      } else {
        if j == pos { assert r[j].value == l; } else { assert r[j] == t[j]; }
      }
    }
  }

  lemma {:induction false} RecvPairsGood(t: PairTable, send: Entry<u16, Counts>, hs: Holders)
    requires GoodPairs(t) && send.value.sendCount >= 1
    ensures GoodPairs(RecvPairs(t, send, hs))
    decreases |hs|
  {
    if |hs| > 0 {
      RecvPairsGood(t, send, hs[..|hs| - 1]);
      var acc := RecvPairs(t, send, hs[..|hs| - 1]);
      var recv := hs[|hs| - 1];
      if recv.value.recvCount > 0 {
        AddIndexGood(acc, PingOpCode(send.key, recv.key), PingIndex(send.value.sendCount, recv.value.recvCount));
      }
    }
  }

  lemma {:induction false} SendPairsGood(t: PairTable, senders: Holders, hs: Holders)
    requires GoodPairs(t)
    ensures GoodPairs(SendPairs(t, senders, hs))
    decreases |senders|
  {
    if |senders| > 0 {
      SendPairsGood(t, senders[..|senders| - 1], hs);
      var acc := SendPairs(t, senders[..|senders| - 1], hs);
      var send := senders[|senders| - 1];
      if send.value.sendCount > 0 {
        RecvPairsGood(acc, send, hs);
      }
    }
  }

  /** Every grouped list can be scored: it is non-empty and its counts are positive. */
  lemma {:induction false} GroupPairsGood(stats: StatTable)
    ensures GoodPairs(GroupPairs(stats))
    decreases |stats|
  {
    if |stats| > 0 {
      var front := stats[..|stats| - 1];
      GroupPairsGood(front);
      var hs := stats[|stats| - 1].value;
      SendPairsGood(GroupPairs(front), hs, hs);
    }
  }

  // ---------------------------------------------------------------------
  // What the grouping holds

  /** What pair `q` gets from one ping index whose senders are `senders` and
    * whose receivers are `receivers`: one entry, holding the send count of
    * `q.client` and the receive count of `q.server`, exactly when the first
    * was sent and the second received. */
  function Hit(senders: Holders, receivers: Holders, q: PingOpCode): (l: seq<PingIndex>)
    ensures |l| <= 1
  {
    var cs, cr := GetOr(senders, q.client, Counts(0, 0)), GetOr(receivers, q.server, Counts(0, 0));
    if cs.sendCount > 0 && cr.recvCount > 0 then [PingIndex(cs.sendCount, cr.recvCount)] else []
  }

  /** What `send` adds to the list of `q` when paired with every opcode of `receivers`. */
  function RecvHit(send: Entry<u16, Counts>, receivers: Holders, q: PingOpCode): seq<PingIndex> {
    var cr := GetOr(receivers, q.server, Counts(0, 0));
    if q.client == send.key && cr.recvCount > 0 then [PingIndex(send.value.sendCount, cr.recvCount)] else []
  }

  /** The list pair `q` should be grouped with: its hit under every ping index, in table order. */
  function Listed(stats: StatTable, q: PingOpCode): (l: seq<PingIndex>)
    ensures |l| <= |stats|
    decreases |stats|
  {
    if |stats| == 0 then []
    else Listed(stats[..|stats| - 1], q) + Hit(stats[|stats| - 1].value, stats[|stats| - 1].value, q)
  }

  /** A lookup in a table decided on its last entry. */
  lemma {:induction false} GetOrLast<K, V>(d: seq<Entry<K, V>>, k: K, absent: V)
    requires |d| > 0 && DistinctKeys(d)
    ensures DistinctKeys(d[..|d| - 1])
    ensures GetOr(d, k, absent) == if d[|d| - 1].key == k then d[|d| - 1].value else GetOr(d[..|d| - 1], k, absent)
    ensures d[|d| - 1].key == k ==> GetOr(d[..|d| - 1], k, absent) == absent
  {
    var front := d[..|d| - 1];
    assert forall j :: 0 <= j < |front| ==> front[j] == d[j];
    if d[|d| - 1].key == k {
      assert Find(front, k) == -1;
    }
  }

  /** Appending to the list of `pair` leaves every other list alone. */
  lemma {:induction false} AddIndexLists(t: PairTable, pair: PingOpCode, p: PingIndex, q: PingOpCode)
    requires DistinctKeys(t)
    ensures DistinctKeys(AddIndex(t, pair, p))
    ensures GetOr(AddIndex(t, pair, p), q, []) == GetOr(t, q, []) + if q == pair then [p] else []
  {
    PutGet(t, pair, GetOr(t, pair, []) + [p], q, []);
  }

  /** The inner loop appends to the list of `q` exactly what `RecvHit` says. */
  lemma {:induction false} RecvPairsLists(t: PairTable, send: Entry<u16, Counts>, hs: Holders, q: PingOpCode)
    requires DistinctKeys(t) && DistinctKeys(hs)
    ensures DistinctKeys(RecvPairs(t, send, hs))
    ensures GetOr(RecvPairs(t, send, hs), q, []) == GetOr(t, q, []) + RecvHit(send, hs, q)
    decreases |hs|
  {
    if |hs| == 0 {
      assert GetOr(hs, q.server, Counts(0, 0)) == Counts(0, 0);
    } else {
      var front := hs[..|hs| - 1];
      var recv := hs[|hs| - 1];
      GetOrLast(hs, q.server, Counts(0, 0));
      RecvPairsLists(t, send, front, q);
      var acc := RecvPairs(t, send, front);
      if recv.value.recvCount > 0 {
        AddIndexLists(acc, PingOpCode(send.key, recv.key), PingIndex(send.value.sendCount, recv.value.recvCount), q);
      }
    }
  }

  /** The outer loop appends to the list of `q` exactly what `Hit` says. */
  lemma {:induction false} SendPairsLists(t: PairTable, senders: Holders, hs: Holders, q: PingOpCode)
    requires DistinctKeys(t) && DistinctKeys(senders) && DistinctKeys(hs)
    ensures DistinctKeys(SendPairs(t, senders, hs))
    ensures GetOr(SendPairs(t, senders, hs), q, []) == GetOr(t, q, []) + Hit(senders, hs, q)
    decreases |senders|
  {
    if |senders| == 0 {
      assert GetOr(senders, q.client, Counts(0, 0)) == Counts(0, 0);
    } else {
      var front := senders[..|senders| - 1];
      var send := senders[|senders| - 1];
      GetOrLast(senders, q.client, Counts(0, 0));
      SendPairsLists(t, front, hs, q);
      var acc := SendPairs(t, front, hs);
      if send.value.sendCount > 0 {
        RecvPairsLists(acc, send, hs, q);
      }
    }
  }

  /** With distinct opcodes under every index, pair `q` is grouped exactly
    * when some ping index saw `q.client` sent and `q.server` received, and
    * its list holds, in table order, the send count of `q.client` and the
    * receive count of `q.server` of exactly those indices. */
  lemma {:induction false} GroupedLists(stats: StatTable, q: PingOpCode)
    requires forall k :: 0 <= k < |stats| ==> DistinctKeys(stats[k].value)
    ensures GetOr(GroupPairs(stats), q, []) == Listed(stats, q)
    ensures Find(GroupPairs(stats), q) >= 0 <==> exists k :: 0 <= k < |stats| && Hit(stats[k].value, stats[k].value, q) != []
    decreases |stats|
  {
    GroupPairsGood(stats);
    GroupedListsPut(stats, q);
    ListedHits(stats, q);
    var t := GroupPairs(stats);
    var i := Find(t, q);
    if i >= 0 {
      assert Scorable(t[i].value);
    }
  }

  lemma {:induction false} GroupedListsPut(stats: StatTable, q: PingOpCode)
    requires forall k :: 0 <= k < |stats| ==> DistinctKeys(stats[k].value)
    ensures DistinctKeys(GroupPairs(stats))
    ensures GetOr(GroupPairs(stats), q, []) == Listed(stats, q)
    decreases |stats|
  {
    if |stats| == 0 {
      var none: PairTable := [];
      assert GetOr(none, q, []) == [];
    } else {
      var front := stats[..|stats| - 1];
      var hs := stats[|stats| - 1].value;
      assert forall k :: 0 <= k < |front| ==> front[k] == stats[k];
      GroupedListsPut(front, q);
      SendPairsLists(GroupPairs(front), hs, hs, q);
    }
  }

  /** The list is non-empty exactly when some index has a hit. */
  lemma {:induction false} ListedHits(stats: StatTable, q: PingOpCode)
    ensures Listed(stats, q) != [] <==> exists k :: 0 <= k < |stats| && Hit(stats[k].value, stats[k].value, q) != []
    decreases |stats|
  {
    if |stats| > 0 {
      var front := stats[..|stats| - 1];
      ListedHits(front, q);
      assert forall k :: 0 <= k < |front| ==> front[k] == stats[k];
    }
  }

  // ---------------------------------------------------------------------
  // Scoring and choosing (`ToDictionary`, `Where`, `Aggregate`)

  datatype Score = Score(pair: PingOpCode, confidence: real)

  function Confidences(l: seq<PingIndex>): (cs: seq<real>)
    requires forall j :: 0 <= j < |l| ==> l[j].sendCount + l[j].recvCount > 0
    ensures |cs| == |l|
  {
    seq(|l|, j requires 0 <= j < |l| => Confidence(l[j]))
  }

  /** Each pair with its average confidence, keeping only the positive ones. */
  function Scores(t: PairTable): (sc: seq<Score>)
    requires forall i :: 0 <= i < |t| ==> Scorable(t[i].value)
    ensures |sc| <= |t|
    ensures forall i :: 0 <= i < |sc| ==> sc[i].confidence > 0.0
    decreases |t|
  {
    if |t| == 0 then []
    else
      var rest := Scores(t[..|t| - 1]);
      var e := t[|t| - 1];
      assert Scorable(e.value);
      var m := Mean(Confidences(e.value));
      if m > 0.0 then rest + [Score(e.key, m)] else rest
  }

  /** The positive filter drops nothing: every grouped pair keeps its score, in order. */
  lemma {:induction false} EveryPairScored(t: PairTable)
    requires forall i :: 0 <= i < |t| ==> Scorable(t[i].value)
    ensures |Scores(t)| == |t|
    ensures forall i :: 0 <= i < |t| ==> Scores(t)[i].pair == t[i].key
    decreases |t|
  {
    if |t| > 0 {
      EveryPairScored(t[..|t| - 1]);
      var l := t[|t| - 1].value;
      var cs := Confidences(l);
      forall j | 0 <= j < |cs|
        ensures cs[j] > 0.0
      {
        ConfidenceSign(l[j]);
      }
      MeanPositive(cs);
    }
  }

  /** `Aggregate((max, next) => max.Value > next.Value ? max : next)`: the
    * position of the highest score, the last one on ties. */
  function ArgMax(sc: seq<Score>): (j: nat)
    requires |sc| > 0
    ensures j < |sc|
    ensures forall i :: 0 <= i < |sc| ==> sc[i].confidence <= sc[j].confidence
    ensures forall i :: j < i < |sc| ==> sc[i].confidence < sc[j].confidence
    decreases |sc|
  {
    if |sc| == 1 then 0
    else
      var m := ArgMax(sc[..|sc| - 1]);
      if sc[m].confidence > sc[|sc| - 1].confidence then m else |sc| - 1
  }

  /** The pair the detector settles on, if any pair was seen. */
  function Winner(t: PairTable): (w: Option<PingOpCode>)
    requires forall i :: 0 <= i < |t| ==> Scorable(t[i].value)
  {
    var sc := Scores(t);
    if |sc| == 0 then None else Some(sc[ArgMax(sc)].pair)
  }

  /** A winner exists exactly when some pair was grouped, and it is a grouped
    * pair whose average confidence no pair exceeds. */
  lemma {:induction false} WinnerOfPairs(t: PairTable)
    requires forall i :: 0 <= i < |t| ==> Scorable(t[i].value)
    ensures Winner(t).None? <==> |t| == 0
    ensures Winner(t).Some? ==>
              exists i :: 0 <= i < |t| && t[i].key == Winner(t).value
                && forall k :: 0 <= k < |t| ==> Mean(Confidences(t[k].value)) <= Mean(Confidences(t[i].value))
  {
    EveryPairScored(t);
    if |t| > 0 {
      var sc := Scores(t);
      var j := ArgMax(sc);
      ScoreIsMean(t);
      assert t[j].key == Winner(t).value;
      assert forall k :: 0 <= k < |t| ==> Mean(Confidences(t[k].value)) <= Mean(Confidences(t[j].value)) by {
        forall k | 0 <= k < |t|
          ensures Mean(Confidences(t[k].value)) <= Mean(Confidences(t[j].value))
        {
          assert sc[k].confidence <= sc[j].confidence;
        }
      }
    }
  }

  lemma {:induction false} ScoreIsMean(t: PairTable)
    requires forall i :: 0 <= i < |t| ==> Scorable(t[i].value)
    requires |Scores(t)| == |t|
    ensures forall i :: 0 <= i < |t| ==> Scores(t)[i].confidence == Mean(Confidences(t[i].value))
    decreases |t|
  {
    if |t| > 0 {
      var front := t[..|t| - 1];
      assert |Scores(front)| == |front| by {
        assert |Scores(t)| <= |Scores(front)| + 1;
      }
      ScoreIsMean(front);
      forall i | 0 <= i < |front|
        ensures Scores(t)[i].confidence == Mean(Confidences(t[i].value))
      {
        assert front[i] == t[i];
      }
    }
  }

  // ---------------------------------------------------------------------
  // A trace with one request opcode and one reply opcode

  /** Under every ping index only opcode `a` is sent and only opcode `b` received. */
  predicate OnlySendsAndReceives(stats: StatTable, a: u16, b: u16) {
    forall k, j :: 0 <= k < |stats| && 0 <= j < |stats[k].value| ==>
      && (stats[k].value[j].value.sendCount > 0 ==> stats[k].value[j].key == a)
      && (stats[k].value[j].value.recvCount > 0 ==> stats[k].value[j].key == b)
  }

  /** When only `a` is sent and only `b` received, and some index saw both,
    * the detector's choice is the pair (a, b). */
  lemma {:induction false} OnlyPairWins(stats: StatTable, a: u16, b: u16)
    requires forall k :: 0 <= k < |stats| ==> DistinctKeys(stats[k].value)
    requires OnlySendsAndReceives(stats, a, b)
    requires exists k :: 0 <= k < |stats| && Matched(stats[k].value)
    ensures GoodPairs(GroupPairs(stats)) && Winner(GroupPairs(stats)) == Some(PingOpCode(a, b))
  {
    var t := GroupPairs(stats);
    GroupPairsGood(stats);
    WinnerOfPairs(t);
    var pair := PingOpCode(a, b);
    var k0 :| 0 <= k0 < |stats| && Matched(stats[k0].value);
    var hs := stats[k0].value;
    var js :| 0 <= js < |hs| && hs[js].value.sendCount > 0;
    var jr :| 0 <= jr < |hs| && hs[jr].value.recvCount > 0;
    FindDistinct(hs, a, js);
    FindDistinct(hs, b, jr);
    assert Hit(hs, hs, pair) != [];
    GroupedLists(stats, pair);
    assert Winner(t).Some?;
    var i :| 0 <= i < |t| && t[i].key == Winner(t).value;
    var w := t[i].key;
    assert Find(t, w) >= 0;
    GroupedLists(stats, w);
    var k :| 0 <= k < |stats| && Hit(stats[k].value, stats[k].value, w) != [];
    HitOnly(stats, k, a, b, w);
  }

  /** A hit under such an index is a hit of (a, b). */
  lemma {:induction false} HitOnly(stats: StatTable, k: nat, a: u16, b: u16, q: PingOpCode)
    requires k < |stats| && OnlySendsAndReceives(stats, a, b)
    requires Hit(stats[k].value, stats[k].value, q) != []
    ensures q == PingOpCode(a, b)
  {
    var hs := stats[k].value;
    var ic, ir := Find(hs, q.client), Find(hs, q.server);
    assert ic >= 0 && hs[ic].value.sendCount > 0;
    assert ir >= 0 && hs[ir].value.recvCount > 0;
  }
}
