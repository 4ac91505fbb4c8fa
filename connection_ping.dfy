/**
 * `ConnectionPing`: a ping sample of one connection, ordered by its ping
 * alone.
 */
module ConnectionPings {
  import opened ConnectionIdentifiers

  /** The ping and the sample time are in milliseconds. */
  datatype ConnectionPing = ConnectionPing(connection: ConnectionIdentifier, ping: int, sampleTime: int)

  /** `CompareTo`: the sign of the difference of the pings. */
  function CompareTo(a: ConnectionPing, b: ConnectionPing): (r: int)
    ensures r == -1 || r == 0 || r == 1
    ensures r < 0 <==> a.ping < b.ping
    ensures r == 0 <==> a.ping == b.ping
    ensures r > 0 <==> a.ping > b.ping
  {
    if a.ping < b.ping then -1 else if a.ping > b.ping then 1 else 0
  }

  /** The connection and the sample time play no part. */
  lemma {:induction false} CompareIgnoresConnection(a: ConnectionPing, b: ConnectionPing, c: ConnectionIdentifier, t: int)
    ensures CompareTo(a.(connection := c, sampleTime := t), b) == CompareTo(a, b)
    ensures CompareTo(a, b.(connection := c, sampleTime := t)) == CompareTo(a, b)
  {
  }

  /** Swapping the operands negates the result. */
  lemma {:induction false} CompareAntisymmetric(a: ConnectionPing, b: ConnectionPing)
    ensures CompareTo(a, b) == -CompareTo(b, a)
  {
  }

  /** The order is transitive, for "not above" and for "below". */
  lemma {:induction false} CompareTransitive(a: ConnectionPing, b: ConnectionPing, c: ConnectionPing)
    ensures CompareTo(a, b) <= 0 && CompareTo(b, c) <= 0 ==> CompareTo(a, c) <= 0
    ensures CompareTo(a, b) < 0 && CompareTo(b, c) < 0 ==> CompareTo(a, c) < 0
  {
  }
}
