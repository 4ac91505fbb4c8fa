/**
 * Latency from the keep-alive exchange: the client sends a keep-alive with
 * an id, the server echoes it, and the time between is a sample.
 *
 * Times are milliseconds passed in as `now`. The initial send time is taken
 * from the local clock and later ones from the UTC clock; that mix is not
 * modelled.
 */
module KeepAlive {
  import opened Bytes
  import opened Def
  import opened Packets
  import opened Wrappers
  import opened PingSamples

  /** The remembered id and the time the keep-alive carrying it was sent. */
  datatype State = State(currentId: u32, lastSent: int)

  /** A fresh handler remembers id 0. */
  function Initial(now: int): State {
    State(0, now)
  }

  /** `ClientSent`: remember the id of the keep-alive at `offset` and the send time. */
  function Sent(st: State, data: seq<u8>, offset: nat, now: int): (r: Result<State>)
    ensures r.Failure? <==> |data| < offset + 8
    ensures r.Failure? ==> r.error == Incomplete
    ensures r.Ok? ==> r.value.lastSent == now && r.value.currentId == ReadLE(data, offset, 4)
  {
    match ParseKeepAlive(data, offset)
    case Failure(e) => Failure(e)
    case Ok(pkt) => Ok(State(pkt.id, now))
  }

  /** `ClientRecv`: a keep-alive echo carrying the remembered id is a sample of
    * the time since the send; any other id gives nothing. */
  function Recv(st: State, data: seq<u8>, offset: nat, now: int): (r: Result<Option<PingSample>>)
    ensures r.Failure? <==> |data| < offset + 8
    ensures r.Failure? ==> r.error == Incomplete
    ensures r.Ok? ==> (r.value.Some? <==> ReadLE(data, offset, 4) == st.currentId)
    ensures r.Ok? && r.value.Some? ==> r.value.value == PingSample(now - st.lastSent, now)
  {
    match ParseKeepAlive(data, offset)
    case Failure(e) => Failure(e)
    case Ok(pkt) =>
      if pkt.id != st.currentId then Ok(None)
      else Ok(Some(PingSample(now - st.lastSent, now)))
  }

  /** The echo of the keep-alive just sent is a sample of exactly the time between. */
  lemma {:induction false} EchoAfterSend(st: State, sent: seq<u8>, so: nat, t0: int, echo: seq<u8>, eo: nat, t1: int)
    requires Sent(st, sent, so, t0).Ok? && eo + 8 <= |echo|
    requires echo[eo..eo + 4] == sent[so..so + 4]
    ensures Recv(Sent(st, sent, so, t0).value, echo, eo, t1) == Ok(Some(PingSample(t1 - t0, t1)))
  {
    ReadLESlice(sent, so, 4);
    ReadLESlice(echo, eo, 4);
  }

  /** A receive leaves the state alone, so the same echo seen again is another
    * sample measured from the same send. */
  lemma {:induction false} RepeatedEcho(st: State, sent: seq<u8>, so: nat, t0: int, echo: seq<u8>, eo: nat, t1: int, t2: int)
    requires Sent(st, sent, so, t0).Ok? && eo + 8 <= |echo|
    requires echo[eo..eo + 4] == sent[so..so + 4]
    ensures Recv(Sent(st, sent, so, t0).value, echo, eo, t2) == Ok(Some(PingSample(t2 - t0, t2)))
    ensures Recv(Sent(st, sent, so, t0).value, echo, eo, t1).value.value.millis
            - Recv(Sent(st, sent, so, t0).value, echo, eo, t2).value.value.millis == t1 - t2
  {
    EchoAfterSend(st, sent, so, t0, echo, eo, t1);
    EchoAfterSend(st, sent, so, t0, echo, eo, t2);
  }

  /** Before any send, an echo with id 0 is already taken as a sample. */
  lemma {:induction false} ZeroIdBeforeAnySend(created: int, echo: seq<u8>, eo: nat, now: int)
    requires eo + 8 <= |echo| && echo[eo..eo + 4] == [0, 0, 0, 0]
    ensures Recv(Initial(created), echo, eo, now) == Ok(Some(PingSample(now - created, now)))
  {
    ReadLESlice(echo, eo, 4);
    assert ReadLE([0, 0, 0, 0], 0, 4) == 0;
  }

  /** `KeepAliveHandler`: the remembered id and send time, updated in place. */
  class KeepAliveHandler {
    var currentId: u32
    var lastKeepAliveSent: int

    function Snapshot(): State
      reads this
    {
      State(currentId, lastKeepAliveSent)
    }

    constructor(now: int)
      ensures Snapshot() == Initial(now)
    {
      currentId := 0;
      lastKeepAliveSent := now;
    }

    method ClientSent(data: seq<u8>, offset: nat, now: int) returns (r: Result<()>)
      modifies this
      ensures match Sent(old(Snapshot()), data, offset, now)
              case Failure(e) => r == Failure(e) && Snapshot() == old(Snapshot())
              case Ok(st) => r == Ok(()) && Snapshot() == st
    {
      var pkt := ParseKeepAlive(data, offset);
      if pkt.Failure? {
        return Failure(pkt.error);
      }
      currentId := pkt.value.id;
      lastKeepAliveSent := now;
      r := Ok(());
    }

    method ClientRecv(data: seq<u8>, offset: nat, now: int) returns (r: Result<Option<PingSample>>)
      ensures r == Recv(Snapshot(), data, offset, now)
    {
      var pkt := ParseKeepAlive(data, offset);
      if pkt.Failure? {
        return Failure(pkt.error);
      }
      if pkt.value.id != currentId {
        return Ok(None);
      }
      r := Ok(Some(PingSample(now - lastKeepAliveSent, now)));
    }
  }
}
