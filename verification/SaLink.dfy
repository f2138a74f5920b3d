/**
 `SALink` with its parameter-based admission control: the array of pending flows and the
 reserved rate, updated in place.
 */
module SaLink {
  import opened Reservation

  datatype Packet = RequestPacket(id: nat, rate: real, decision: bool)
                  | AnswerPacket(id: nat, rate: real, decision: bool)
                  | ConfirmPacket(id: nat, rate: real, decision: bool)
                  | TeardownPacket(id: nat, rate: real, decision: bool)

  /** The first match is where a search that passed all earlier slots stops. */
  lemma {:induction false} SlotIs(pending: seq<int>, id: int, j: nat)
    requires j < |pending| && pending[j] == id && id !in pending[..j]
    ensures Slot(pending, id) == j
    decreases j
  {
    if j > 0 {
      assert pending[0] == pending[..j][0];
      assert pending[1..][..j - 1] == pending[..j][1..];
      SlotIs(pending[1..], id, j - 1);
    }
  }

  class SALink {
    const cap: real
    const pending: array<int>
    var resvRate: real

    ghost function Value(): Link
      reads this, pending
    {
      Link(cap, resvRate, pending[..])
    }

    constructor (utilization: real, bandwidth: real)
      ensures Value() == Link(utilization * bandwidth, 0.0, seq(NFLOWS, _ => FREE))
      ensures fresh(pending)
    {
      cap := utilization * bandwidth;
      pending := new int[NFLOWS](_ => FREE);
      resvRate := 0.0;
    }

    method AdmitFlow(rate: real) returns (admitted: bool)
      modifies `resvRate
      ensures admitted == Admits(old(Value()), rate)
      ensures resvRate == if admitted then old(resvRate) + rate else old(resvRate)
    {
      if resvRate + rate <= cap {
        resvRate := resvRate + rate;
        return true;
      }
      return false;
    }

    method Lookup(id: int) returns (j: int)
      ensures j == Slot(pending[..], id)
    {
      for i := 0 to pending.Length
        invariant id !in pending[..i]
      {
        if pending[i] == id {
          SlotIs(pending[..], id, i);
          return i;
        }
      }
      assert pending[..pending.Length] == pending[..];
      return -1;
    }

    /** Handles a signalling packet and passes it on; none where the program exits. */
    method Receive(p: Packet) returns (out: seq<Packet>)
      modifies this, pending
      ensures p.RequestPacket? ==> (out == [] <==> Exits(old(Value()), p.rate))
      ensures p.RequestPacket? && out != [] ==>
                && Value() == Request(old(Value()), p.id, p.rate)
                && out == [RequestPacket(p.id, p.rate, p.decision && Admits(old(Value()), p.rate))]
      ensures !p.RequestPacket? ==> out == [p]
      ensures p.AnswerPacket? ==> Value() == old(Value())
      ensures p.ConfirmPacket? ==> Value() == Confirm(old(Value()), p.id, p.rate, p.decision)
      ensures p.TeardownPacket? ==> Value() == Teardown(old(Value()), p.rate)
    {
      out := [p];
      match p {
        case RequestPacket(id, rate, decision) =>
          var decide := AdmitFlow(rate);
          out := [RequestPacket(id, rate, decision && decide)];
          if decide {
            var j := Lookup(FREE);
            if j == -1 {
              return [];
            }
            pending[j] := id;
          }
        case AnswerPacket(_, _, _) =>
        case ConfirmPacket(id, rate, decision) =>
          var j := Lookup(id);
          if j != -1 {
            if !decision {
              resvRate := resvRate - rate;
            }
            pending[j] := FREE;
          }
        case TeardownPacket(_, rate, _) =>
          resvRate := resvRate - rate;
      }
    }
  }
}
