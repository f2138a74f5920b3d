/**
 The sending side of `BayFullTcpAgent`: its fields, and its methods proved against the
 functions of `BaySender`.
 */
module BayAgent {
  import opened Basics
  import opened BaySender

  class BayFullTcpAgent {
    const config: Config
    var state: State
    var curSeq: int
    var highestAck: int
    var tSeqno: int
    var maxSeq: int
    var sentSyn: bool
    var sentFin: bool
    var ackNow: bool
    var closeOnEmpty: bool
    var dupAcks: nat
    var recover: int
    var recoverByTimeout: bool

    ghost function Value(): Sender
      reads this
    {
      Sender(state, curSeq, highestAck, tSeqno, maxSeq, sentSyn, sentFin, ackNow, closeOnEmpty,
             dupAcks, recover, recoverByTimeout)
    }

    constructor (c: Config, initial: State)
      ensures config == c && Ordered(c, Value()) && state == initial && tSeqno == c.iss
    {
      config, state, curSeq := c, initial, c.iss;
      highestAck, tSeqno, maxSeq := 0, c.iss, c.iss;
      sentSyn, sentFin, ackNow, closeOnEmpty := false, false, false, false;
      dupAcks, recover, recoverByTimeout := 0, 0, false;
    }

    method Reinit()
      modifies this
      ensures Value() == BaySender.Reinit(config, old(Value()))
    {
      highestAck := 0;
      recover, recoverByTimeout := 0, false;
      sentSyn, sentFin, ackNow := false, false, false;
      tSeqno, maxSeq := config.iss, config.iss;
    }

    /** How much data the packet takes, and which flags. */
    method Shape(seqno: int, load: Load) returns (len: nat, syn: bool, fin: bool, emptying: bool)
      modifies `state
      ensures len == DataLen(config, old(Value()), seqno, load)
      ensures syn == Syn(old(Value()))
      ensures fin == Fin(config, old(Value()), seqno, load)
      ensures emptying == Emptying(config, old(Value()), seqno, load)
      ensures state == StateAfter(config, old(Value()), seqno, load)
    {
      var buffered := curSeq + config.iss - seqno;
      var room := Min(buffered, highestAck + load.window * config.maxSeg - seqno);
      syn := state == SynSent || state == SynReceived;
      fin := state == FinWait1 || state == LastAck;
      emptying := false;
      if syn || room <= 0 {
        len := 0;
      } else if room > config.maxSeg {
        len := config.maxSeg;
      } else {
        len := room;
        if room == buffered {
          emptying := true;
          if closeOnEmpty {
            fin := true;
            state := FinWait1;
          }
        }
      }
      if len > 0 && !emptying {
        fin := false;
      }
    }

    method Transmit(seqno: int, len: nat, syn: bool, fin: bool) returns (sent: Sent)
      modifies `tSeqno, `maxSeq, `sentSyn, `sentFin, `ackNow
      ensures (Value(), sent) == BaySender.Transmit(old(Value()), seqno, len, syn, fin)
    {
      var from := seqno;
      if fin {
        if sentFin {
          if seqno >= maxSeq {
            from := seqno - 1;
          }
        } else {
          sentFin := true;
          tSeqno := tSeqno + 1;
        }
      }
      if syn && !sentSyn {
        sentSyn := true;
        tSeqno := tSeqno + 1;
      }
      sent := Packet(from, len, syn, fin);
      ackNow := false;
      tSeqno := tSeqno + len;
      if tSeqno > maxSeq {
        maxSeq := tSeqno;
      }
    }

    method Output(seqno: int, load: Load) returns (sent: Sent)
      modifies this
      ensures (Value(), sent) == BaySender.Output(config, old(Value()), seqno, load)
    {
      var isRetransmit := seqno < maxSeq;
      var idle := highestAck == maxSeq;
      var len, syn, fin, emptying := Shape(seqno, load);
      if len > 0 {
        if len == config.maxSeg || ((idle || config.noDelay) && emptying) || isRetransmit
           || len as real >= load.wnd * config.maxSeg as real / 2.0 {
          sent := Transmit(seqno, len, syn, fin);
          return;
        }
      }
      if load.needSend || ackNow || syn || fin || emptying {
        sent := Transmit(seqno, len, syn, fin);
        return;
      }
      sent := Nothing;
    }

    method NewAck(ackno: int)
      modifies `highestAck, `tSeqno
      ensures Value() == BaySender.NewAck(old(Value()), ackno)
    {
      if ackno > highestAck {
        highestAck := ackno;
      }
      if tSeqno < highestAck {
        tSeqno := highestAck;
      }
    }

    method FastRetransmit(from: int, load: Load) returns (sent: Sent)
      modifies this
      ensures (Value(), sent) == BaySender.FastRetransmit(config, old(Value()), from, load)
    {
      var next := tSeqno;
      recover := maxSeq;
      recoverByTimeout := false;
      sent := Output(from, load);
      tSeqno := next;
    }

    /** The retransmission timer, up to the sending that follows. */
    method Timeout()
      modifies this
      ensures Value() == Step(config, old(Value()), Timer).0
    {
      if state == Closed || state == Listen {
        return;
      }
      recover := maxSeq;
      recoverByTimeout := true;
      tSeqno := highestAck;
      dupAcks := 0;
    }

    /** The processing of an acknowledgement, up to the sending that follows. */
    method RecvAck(a: Ack, load: Load) returns (sent: Sent)
      modifies this
      ensures (Value(), sent) == AckIn(config, old(Value()), a, load)
    {
      sent := Nothing;
      if state == Closed || state == Listen {
        return;
      }
      if state == SynSent {
        if a.ackno <= maxSeq {
          ackNow := true;
          NewAck(a.ackno);
          state := Established;
        }
        return;
      }
      if state == SynReceived {
        if a.ackno < highestAck || a.ackno > maxSeq {
          return;
        }
        state := Established;
      }
      if a.ackno <= highestAck {
        sent := Duplicate(a, load);
        return;
      }
      dupAcks := 0;
      if a.ackno > maxSeq {
        ackNow := true;
        return;
      }
      NewAck(a.ackno);
    }

    /** An acknowledgement that does not advance. */
    method Duplicate(a: Ack, load: Load) returns (sent: Sent)
      requires a.ackno <= highestAck
      modifies this
      ensures (Value(), sent) == AckWhenOpen(config, old(Value()), a, load)
    {
      sent := Nothing;
      if a.dataLen == 0 && (!config.dupsegFix || !a.dupSeg) {
        if !a.timing || a.ackno != highestAck {
          dupAcks := 0;
        } else if config.bugFix && highestAck == recover && recoverByTimeout {
          dupAcks := 0;
        } else {
          dupAcks := dupAcks + 1;
          if dupAcks == config.rexmtThresh {
            sent := FastRetransmit(a.ackno, load);
          }
        }
      } else if config.dupackReset {
        dupAcks := 0;
      }
    }
  }
}
