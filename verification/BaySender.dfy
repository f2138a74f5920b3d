/**
 The sender's sequence numbers in `baytcp/tcp-full-bay.cc`: what `output`, acknowledgements,
 fast retransmissions and timeouts do to `highest_ack_`, `t_seqno_` and `maxseq_`.
 */
module BaySender {
  import opened Basics

  datatype State = Closed | Listen | SynSent | SynReceived | Established | FinWait1 | Closing | LastAck | FinWait2

  datatype Config = Config(iss: nat, maxSeg: nat, rexmtThresh: nat,
                           noDelay: bool, bugFix: bool, dupsegFix: bool, dupackReset: bool)

  /** The fields of the agent; `recoverByTimeout` says what began the last recovery. */
  datatype Sender = Sender(state: State, curSeq: int, highestAck: int, tSeqno: int, maxSeq: int,
                           sentSyn: bool, sentFin: bool, ackNow: bool, closeOnEmpty: bool,
                           dupAcks: nat, recover: int, recoverByTimeout: bool)

  datatype Sent = Nothing | Packet(seqno: int, len: int, syn: bool, fin: bool)

  /** What the window functions and the receiving side answer when a packet may go out. */
  datatype Load = Load(window: int, wnd: real, needSend: bool)

  // ---------- The handlers ----------

  /** How many bytes `output` may send from `seqno` on, before it is cut to a segment. */
  function Room(c: Config, s: Sender, seqno: int, load: Load): int {
    Min(s.curSeq + c.iss - seqno, s.highestAck + load.window * c.maxSeg - seqno)
  }

  predicate Syn(s: Sender) {
    s.state == SynSent || s.state == SynReceived
  }

  function DataLen(c: Config, s: Sender, seqno: int, load: Load): nat {
    var room := Room(c, s, seqno, load);
    if Syn(s) || room <= 0 then 0 else Min(room, c.maxSeg)
  }

  /** The packet would take everything the application has handed over. */
  predicate Emptying(c: Config, s: Sender, seqno: int, load: Load) {
    var room := Room(c, s, seqno, load);
    !Syn(s) && 0 < room <= c.maxSeg && room == s.curSeq + c.iss - seqno
  }

  predicate Fin(c: Config, s: Sender, seqno: int, load: Load) {
    var len, emptying := DataLen(c, s, seqno, load), Emptying(c, s, seqno, load);
    && (s.state == FinWait1 || s.state == LastAck || (emptying && s.closeOnEmpty))
    && (len == 0 || emptying)
  }

  /** Nagle's rule and the other reasons to send. */
  predicate Goes(c: Config, s: Sender, seqno: int, load: Load) {
    var len, emptying := DataLen(c, s, seqno, load), Emptying(c, s, seqno, load);
    || (len > 0 && (|| len == c.maxSeg
                    || ((s.highestAck == s.maxSeq || c.noDelay) && emptying)
                    || seqno < s.maxSeq
                    || len as real >= load.wnd * c.maxSeg as real / 2.0))
    || load.needSend || s.ackNow || Syn(s) || Fin(c, s, seqno, load) || emptying
  }

  /** Puts the packet together, counts a first SYN and FIN, and moves on. A repeated FIN does
      not push the number it is sent with past `maxseq_`. */
  function Transmit(s: Sender, seqno: int, len: nat, syn: bool, fin: bool): (Sender, Sent) {
    var flagged := (if fin && !s.sentFin then 1 else 0) + (if syn && !s.sentSyn then 1 else 0);
    var t := s.tSeqno + flagged + len;
    (s.(tSeqno := t, maxSeq := Max(s.maxSeq, t), sentFin := s.sentFin || fin,
        sentSyn := s.sentSyn || syn, ackNow := false),
     Packet(if fin && s.sentFin && seqno >= s.maxSeq then seqno - 1 else seqno, len, syn, fin))
  }

  function StateAfter(c: Config, s: Sender, seqno: int, load: Load): State {
    if Emptying(c, s, seqno, load) && s.closeOnEmpty then FinWait1 else s.state
  }

  function Output(c: Config, s: Sender, seqno: int, load: Load): (Sender, Sent) {
    var s0 := s.(state := StateAfter(c, s, seqno, load));
    if Goes(c, s, seqno, load) then
      Transmit(s0, seqno, DataLen(c, s, seqno, load), Syn(s), Fin(c, s, seqno, load))
    else (s0, Nothing)
  }

  /** Sends from `from`, then goes on where it was. */
  function FastRetransmit(c: Config, s: Sender, from: int, load: Load): (Sender, Sent) {
    var (s1, p) := Output(c, s.(recover := s.maxSeq, recoverByTimeout := false), from, load);
    (s1.(tSeqno := s.tSeqno), p)
  }

  function NewAck(s: Sender, ackno: int): Sender {
    var h := Max(s.highestAck, ackno);
    s.(highestAck := h, tSeqno := Max(s.tSeqno, h))
  }

  /** The segment that brings an acknowledgement, and whether the retransmission timer runs. */
  datatype Ack = Ack(ackno: int, dataLen: nat, dupSeg: bool, timing: bool)

  predicate CountsAsDuplicate(c: Config, s: Sender, a: Ack) {
    a.ackno <= s.highestAck && a.dataLen == 0 && (!c.dupsegFix || !a.dupSeg)
  }

  /** The acknowledgement is the one duplicate that starts a fast retransmission. */
  predicate Triggers(c: Config, s: Sender, a: Ack) {
    && CountsAsDuplicate(c, s, a)
    && a.timing && a.ackno == s.highestAck
    && !(c.bugFix && s.highestAck == s.recover && s.recoverByTimeout)
    && s.dupAcks + 1 == c.rexmtThresh
  }

  function AckWhenOpen(c: Config, s: Sender, a: Ack, load: Load): (Sender, Sent) {
    if a.ackno <= s.highestAck then
      if !CountsAsDuplicate(c, s, a) then (if c.dupackReset then s.(dupAcks := 0) else s, Nothing)
      else if !a.timing || a.ackno != s.highestAck then (s.(dupAcks := 0), Nothing)
      else if c.bugFix && s.highestAck == s.recover && s.recoverByTimeout then (s.(dupAcks := 0), Nothing)
      else
        var s1 := s.(dupAcks := s.dupAcks + 1);
        if Triggers(c, s, a) then FastRetransmit(c, s1, a.ackno, load) else (s1, Nothing)
    else if a.ackno > s.maxSeq then (s.(dupAcks := 0, ackNow := true), Nothing)
    else (NewAck(s.(dupAcks := 0), a.ackno), Nothing)
  }

  function AckIn(c: Config, s: Sender, a: Ack, load: Load): (Sender, Sent) {
    match s.state
    case Closed | Listen => (s, Nothing)
    case SynSent =>
      if a.ackno > s.maxSeq then (s, Nothing)
      else (NewAck(s, a.ackno).(ackNow := true, state := Established), Nothing)
    case SynReceived =>
      if a.ackno < s.highestAck || a.ackno > s.maxSeq then (s, Nothing)
      else AckWhenOpen(c, s.(state := Established), a, load)
    case _ => AckWhenOpen(c, s, a, load)
  }

  function Reinit(c: Config, s: Sender): Sender {
    s.(highestAck := 0, tSeqno := c.iss, maxSeq := c.iss, sentSyn := false, sentFin := false,
       ackNow := false, recover := 0, recoverByTimeout := false)
  }

  // ---------- Runs ----------

  /** `Send` is one packet of `send_much`; `Opened` is the SYN that a listening sender waits
      for; `OldSyn` is a repeated SYN. `Move` stands for what opening and closing do to the
      state and the application to the data at hand, and for `listen`, which may be called in
      any state. */
  datatype Event = Send(load: Load) | Acked(a: Ack, load: Load) | Timer | Connect(load: Load)
                 | Opened | OldSyn | Move(to: State, curSeq: int, closeOnEmpty: bool) | Restart(to: State)

  function Step(c: Config, s: Sender, ev: Event): (Sender, Sent) {
    match ev
    case Send(load) => Output(c, s, s.tSeqno, load)
    case Acked(a, load) => AckIn(c, s, a, load)
    case Timer =>
      if s.state == Closed || s.state == Listen then (s, Nothing)
      else (s.(recover := s.maxSeq, recoverByTimeout := true, tSeqno := s.highestAck, dupAcks := 0), Nothing)
    case Connect(load) => Output(c, s.(state := SynSent), c.iss, load)
    case Opened =>
      if s.state == Listen then (s.(state := SynReceived, tSeqno := c.iss, ackNow := true), Nothing)
      else (s, Nothing)
    case OldSyn => (s.(tSeqno := s.highestAck), Nothing)
    case Move(to, curSeq, closeOnEmpty) => (s.(state := to, curSeq := curSeq, closeOnEmpty := closeOnEmpty), Nothing)
    case Restart(to) => (Reinit(c, s).(state := to), Nothing)
  }

  function Run(c: Config, s: Sender, evs: seq<Event>): Sender {
    if evs == [] then s else Step(c, Run(c, s, evs[..|evs| - 1]), evs[|evs| - 1]).0
  }

  /** Nothing beyond what was sent is acknowledged or next to be sent. */
  predicate Bounded(c: Config, s: Sender) {
    s.highestAck <= s.maxSeq && s.tSeqno <= s.maxSeq && c.iss <= s.maxSeq
  }

  /** And what comes next was not acknowledged yet. */
  predicate Ordered(c: Config, s: Sender) {
    Bounded(c, s) && s.highestAck <= s.tSeqno
  }

  /** A connection is accepted although something of an earlier one was acknowledged. */
  predicate Reopens(c: Config, s: Sender, ev: Event) {
    ev.Opened? && s.state == Listen && s.highestAck > c.iss
  }

  // ---------- The order of the sequence numbers ----------

  lemma OutputAdvances(c: Config, s: Sender, seqno: int, load: Load)
    ensures var s' := Output(c, s, seqno, load).0;
            && s'.highestAck == s.highestAck && s.maxSeq <= s'.maxSeq && s.tSeqno <= s'.tSeqno
            && (s.tSeqno <= s.maxSeq ==> s'.tSeqno <= s'.maxSeq)
  {
  }

  /** What an acknowledgement does to the numbers, whether they are in order or not. */
  ghost predicate Advances(s: Sender, s': Sender) {
    && s.highestAck <= s'.highestAck && s.maxSeq <= s'.maxSeq
    && (s.highestAck <= s.maxSeq && s.tSeqno <= s.maxSeq ==> s'.highestAck <= s'.maxSeq && s'.tSeqno <= s'.maxSeq)
    && (s.highestAck <= s.tSeqno ==> s'.highestAck <= s'.tSeqno)
  }

  lemma AckWhenOpenAdvances(c: Config, s: Sender, a: Ack, load: Load)
    ensures Advances(s, AckWhenOpen(c, s, a, load).0)
  {
    if Triggers(c, s, a) {
      var s1 := s.(dupAcks := s.dupAcks + 1);
      assert AckWhenOpen(c, s, a, load) == FastRetransmit(c, s1, a.ackno, load);
    }
  }

  lemma AckAdvances(c: Config, s: Sender, a: Ack, load: Load)
    ensures Advances(s, AckIn(c, s, a, load).0)
  {
    if s.state == SynReceived {
      AckWhenOpenAdvances(c, s.(state := Established), a, load);
    } else {
      AckWhenOpenAdvances(c, s, a, load);
    }
  }

  /** In any state: what is acknowledged or sent is not taken back before the next restart. */
  lemma StepTakesNothingBack(c: Config, s: Sender, ev: Event)
    requires !ev.Restart?
    ensures s.highestAck <= Step(c, s, ev).0.highestAck && s.maxSeq <= Step(c, s, ev).0.maxSeq
  {
    match ev {
      case Send(load) => OutputAdvances(c, s, s.tSeqno, load);
      case Connect(load) => OutputAdvances(c, s.(state := SynSent), c.iss, load);
      case Acked(a, load) => AckAdvances(c, s, a, load);
      case _ =>
    }
  }

  lemma StepKeepsBounds(c: Config, s: Sender, ev: Event)
    requires Bounded(c, s)
    ensures Bounded(c, Step(c, s, ev).0)
  {
    match ev {
      case Send(load) => OutputAdvances(c, s, s.tSeqno, load);
      case Connect(load) => OutputAdvances(c, s.(state := SynSent), c.iss, load);
      case Acked(a, load) => AckAdvances(c, s, a, load);
      case _ =>
    }
  }

  /** An event keeps the order if and only if it does not accept a connection while something
      beyond the initial number stands acknowledged. */
  lemma StepOrderedExactly(c: Config, s: Sender, ev: Event)
    requires Ordered(c, s)
    ensures Ordered(c, Step(c, s, ev).0) <==> !Reopens(c, s, ev)
  {
    StepKeepsBounds(c, s, ev);
    match ev {
      case Send(load) => OutputAdvances(c, s, s.tSeqno, load);
      case Connect(load) => OutputAdvances(c, s.(state := SynSent), c.iss, load);
      case Acked(a, load) => AckAdvances(c, s, a, load);
      case _ =>
    }
  }

  /** The numbers were in order at every moment. */
  ghost predicate AlwaysOrdered(c: Config, s: Sender, evs: seq<Event>)
    decreases |evs|
  {
    Ordered(c, Run(c, s, evs)) && (evs != [] ==> AlwaysOrdered(c, s, evs[..|evs| - 1]))
  }

  ghost predicate NeverReopens(c: Config, s: Sender, evs: seq<Event>)
    decreases |evs|
  {
    evs != [] ==>
      var before := evs[..|evs| - 1];
      NeverReopens(c, s, before) && !Reopens(c, Run(c, s, before), evs[|evs| - 1])
  }

  /** For all runs: what was acknowledged, what comes next and what was sent are in this order
      at every moment if and only if no connection is accepted while something beyond the
      initial number stands acknowledged. */
  lemma {:induction false} SenderOrderedExactly(c: Config, s: Sender, evs: seq<Event>)
    requires Ordered(c, s)
    ensures AlwaysOrdered(c, s, evs) <==> NeverReopens(c, s, evs)
    decreases |evs|
  {
    if evs != [] {
      var before := evs[..|evs| - 1];
      SenderOrderedExactly(c, s, before);
      if Ordered(c, Run(c, s, before)) {
        StepOrderedExactly(c, Run(c, s, before), evs[|evs| - 1]);
      }
    }
  }

  /** For all runs, in order or not: nothing beyond what was sent is acknowledged or next to be
      sent, and up to the next restart nothing is taken back. */
  lemma {:induction false} NothingIsTakenBack(c: Config, s: Sender, evs: seq<Event>)
    requires Bounded(c, s)
    ensures Bounded(c, Run(c, s, evs))
    ensures (forall k :: 0 <= k < |evs| ==> !evs[k].Restart?) ==>
              s.highestAck <= Run(c, s, evs).highestAck && s.maxSeq <= Run(c, s, evs).maxSeq
    decreases |evs|
  {
    if evs != [] {
      var before, ev := evs[..|evs| - 1], evs[|evs| - 1];
      NothingIsTakenBack(c, s, before);
      StepKeepsBounds(c, Run(c, s, before), ev);
      if !ev.Restart? { StepTakesNothingBack(c, Run(c, s, before), ev); }
    }
  }

  lemma RestartIsOrdered(c: Config, s: Sender, to: State)
    ensures Ordered(c, Step(c, s, Restart(to)).0)
  {
  }

  // ---------- What an acknowledgement does ----------

  /** The connection is past its first SYN. */
  predicate Connected(s: Sender) {
    s.state != Closed && s.state != Listen && s.state != SynSent
  }

  /** An acknowledgement of something new moves the window to it, ends the count of duplicates
      and sends nothing; it also opens a connection that waits for it. */
  lemma NewDataAcked(c: Config, s: Sender, a: Ack, load: Load)
    requires Connected(s) && s.highestAck < a.ackno <= s.maxSeq
    ensures var (s', p) := Step(c, s, Acked(a, load));
            && s'.highestAck == a.ackno && s'.tSeqno == (if s.tSeqno < a.ackno then a.ackno else s.tSeqno)
            && s'.maxSeq == s.maxSeq && s'.dupAcks == 0 && p == Nothing
            && s'.state == (if s.state == SynReceived then Established else s.state)
            && s'.curSeq == s.curSeq && s'.sentSyn == s.sentSyn && s'.sentFin == s.sentFin
  {
    AckInOpen(c, s, a, load);
    NewAckInOpen(c, Opening(s), a, load);
  }

  lemma AckInOpen(c: Config, s: Sender, a: Ack, load: Load)
    requires Connected(s) && (s.state == SynReceived ==> s.highestAck <= a.ackno <= s.maxSeq)
    ensures AckIn(c, s, a, load) == AckWhenOpen(c, Opening(s), a, load)
  {
  }

  lemma NewAckInOpen(c: Config, s: Sender, a: Ack, load: Load)
    requires s.highestAck < a.ackno <= s.maxSeq
    ensures AckWhenOpen(c, s, a, load) == (NewAck(s.(dupAcks := 0), a.ackno), Nothing)
  {
  }

  /** One beyond everything sent moves nothing; an open connection answers it. */
  lemma TooMuchAcked(c: Config, s: Sender, a: Ack, load: Load)
    requires Connected(s) && s.highestAck <= s.maxSeq < a.ackno
    ensures var (s', p) := Step(c, s, Acked(a, load));
            && p == Nothing && s'.highestAck == s.highestAck && s'.tSeqno == s.tSeqno && s'.maxSeq == s.maxSeq
            && (s.state != SynReceived ==> s'.ackNow)
  {
  }

  /** The first answer to a SYN opens the connection, unless it acknowledges more than was
      sent. */
  lemma SynAcked(c: Config, s: Sender, a: Ack, load: Load)
    requires s.state == SynSent
    ensures var (s', p) := Step(c, s, Acked(a, load));
            && p == Nothing
            && if a.ackno > s.maxSeq then s' == s
               else s'.state == Established && s'.ackNow && s'.maxSeq == s.maxSeq
                    && s'.highestAck == Max(s.highestAck, a.ackno) && s'.tSeqno == Max(s.tSeqno, s'.highestAck)
  {
  }

  /** A duplicate that counts: it brings no data, the retransmission timer runs, and it is not
      about what a timeout is already resending. */
  predicate Duplicate(c: Config, s: Sender, a: Ack) {
    && a.ackno == s.highestAck && a.dataLen == 0 && a.timing && !(c.dupsegFix && a.dupSeg)
    && !(c.bugFix && s.recoverByTimeout && s.highestAck == s.recover)
  }

  /** Duplicates are counted. Exactly the one that makes it `rexmtThresh` sends again, from the
      acknowledged number, as much as a segment, the data at hand and the window allow, after
      which sending goes on where it was. */
  lemma DuplicateAcked(c: Config, s: Sender, a: Ack, load: Load)
    requires Connected(s) && s.state != SynReceived && Duplicate(c, s, a) && c.maxSeg > 0
    ensures var (s', p) := Step(c, s, Acked(a, load));
            && s'.dupAcks == s.dupAcks + 1 && s'.highestAck == s.highestAck && s'.tSeqno == s.tSeqno
            && if s.dupAcks + 1 != c.rexmtThresh then p == Nothing && s'.maxSeq == s.maxSeq
               else
                 && s'.recover == s.maxSeq && !s'.recoverByTimeout
                 && (s.highestAck < s.maxSeq && CanSend(c, s, s.highestAck, load, 1) ==>
                       && p.Packet? && 0 < p.len <= c.maxSeg && CanSend(c, s, s.highestAck, load, p.len)
                       && (p.len < c.maxSeg ==> !CanSend(c, s, s.highestAck, load, p.len + 1))
                       && (p.seqno == s.highestAck || (p.fin && p.seqno == s.highestAck - 1)))
  {
    if s.dupAcks + 1 == c.rexmtThresh {
      assert Triggers(c, s, a);
      var s0 := s.(dupAcks := s.dupAcks + 1, recover := s.maxSeq, recoverByTimeout := false);
      TriggeredSends(c, s, a, load);
      if s.highestAck < s.maxSeq && CanSend(c, s, s.highestAck, load, 1) {
        SendsAgain(c, s0, load);
      }
    } else {
      DuplicateCounted(c, s, a, load);
    }
  }

  lemma DuplicateCounted(c: Config, s: Sender, a: Ack, load: Load)
    requires Connected(s) && s.state != SynReceived && Duplicate(c, s, a) && s.dupAcks + 1 != c.rexmtThresh
    ensures Step(c, s, Acked(a, load)) == (s.(dupAcks := s.dupAcks + 1), Nothing)
  {
    AckInOpen(c, s, a, load);
  }

  /** What was sent before and may be sent goes out again, as much of it as possible. */
  lemma SendsAgain(c: Config, s: Sender, load: Load)
    requires Connected(s) && s.state != SynReceived && c.maxSeg > 0
    requires s.highestAck < s.maxSeq && CanSend(c, s, s.highestAck, load, 1)
    ensures var p := Output(c, s, s.highestAck, load).1;
            && p.Packet? && 0 < p.len <= c.maxSeg && CanSend(c, s, s.highestAck, load, p.len)
            && (p.len < c.maxSeg ==> !CanSend(c, s, s.highestAck, load, p.len + 1))
            && (p.seqno == s.highestAck || (p.fin && p.seqno == s.highestAck - 1))
  {
    OutputGoes(c, s, s.highestAck, load);
    OutputSends(c, s, s.highestAck, load);
  }

  lemma TriggeredSends(c: Config, s: Sender, a: Ack, load: Load)
    requires Connected(s) && s.state != SynReceived && Triggers(c, s, a)
    ensures var s0 := s.(dupAcks := s.dupAcks + 1, recover := s.maxSeq, recoverByTimeout := false);
            && Step(c, s, Acked(a, load)).0 == Output(c, s0, s.highestAck, load).0.(tSeqno := s.tSeqno)
            && Step(c, s, Acked(a, load)).1 == Output(c, s0, s.highestAck, load).1
            && Output(c, s0, s.highestAck, load).0.dupAcks == s.dupAcks + 1
            && Output(c, s0, s.highestAck, load).0.highestAck == s.highestAck
            && Output(c, s0, s.highestAck, load).0.recover == s.maxSeq
            && !Output(c, s0, s.highestAck, load).0.recoverByTimeout
  {
    var s1 := s.(dupAcks := s.dupAcks + 1);
    AckInOpen(c, s, a, load);
    TriggeredInOpen(c, s, a, load);
    OutputKeepsCounts(c, s1.(recover := s.maxSeq, recoverByTimeout := false), s.highestAck, load);
  }

  lemma TriggeredInOpen(c: Config, s: Sender, a: Ack, load: Load)
    requires Triggers(c, s, a)
    ensures AckWhenOpen(c, s, a, load) == FastRetransmit(c, s.(dupAcks := s.dupAcks + 1), a.ackno, load)
  {
  }

  lemma OutputKeepsCounts(c: Config, s: Sender, from: int, load: Load)
    ensures var s' := Output(c, s, from, load).0;
            && s'.dupAcks == s.dupAcks && s'.highestAck == s.highestAck
            && s'.recover == s.recover && s'.recoverByTimeout == s.recoverByTimeout
  {
  }

  /** How connections begin: a restart forgets what was sent and acknowledged, a connect sends a
      SYN, and a SYN that finds the sender listening is answered from the initial number. */
  lemma ConnectionBegins(c: Config, s: Sender, to: State, load: Load)
    ensures var r := Step(c, s, Restart(to)).0;
            && r.state == to && r.highestAck == 0 && r.tSeqno == r.maxSeq == c.iss
            && !r.sentSyn && !r.sentFin && !r.ackNow
    ensures var (s', p) := Step(c, s, Connect(load));
            s'.state == SynSent && s'.sentSyn && p.Packet? && p.syn && p.len == 0 && p.seqno == c.iss
    ensures s.state == Listen ==>
              var s' := Step(c, s, Opened).0; s'.state == SynReceived && s'.tSeqno == c.iss && s'.ackNow
    ensures Step(c, s, OldSyn) == (s.(tSeqno := s.highestAck), Nothing)
  {
  }

  /** A timeout goes back to the first byte that is not acknowledged. */
  lemma TimedOut(c: Config, s: Sender)
    requires s.state != Closed && s.state != Listen
    ensures var (s', p) := Step(c, s, Timer);
            && p == Nothing && s'.tSeqno == s.highestAck == s'.highestAck && s'.maxSeq == s.maxSeq
            && s'.dupAcks == 0 && s'.recover == s.maxSeq && s'.recoverByTimeout
  {
  }

  /** The acknowledgement is for something that was sent, on a connection that is not closed. */
  predicate Acceptable(s: Sender, ev: Event) {
    ev.Acked? && s.state != Closed && s.state != Listen && ev.a.ackno <= s.maxSeq
  }

  /** The largest of what was acknowledged before and of the numbers acceptable when they
      came. */
  function LargestAcked(c: Config, s: Sender, evs: seq<Event>): int {
    if evs == [] then s.highestAck
    else
      var before, ev := evs[..|evs| - 1], evs[|evs| - 1];
      var h := LargestAcked(c, s, before);
      if Acceptable(Run(c, s, before), ev) && ev.a.ackno > h then ev.a.ackno else h
  }

  lemma StepAcks(c: Config, s: Sender, ev: Event)
    requires s.highestAck <= s.maxSeq && !ev.Restart?
    ensures Step(c, s, ev).0.highestAck ==
            if Acceptable(s, ev) && ev.a.ackno > s.highestAck then ev.a.ackno else s.highestAck
  {
    match ev {
      case Send(load) => OutputAdvances(c, s, s.tSeqno, load);
      case Connect(load) => OutputAdvances(c, s.(state := SynSent), c.iss, load);
      case Acked(a, load) =>
        if Connected(s) && s.highestAck < a.ackno {
          if a.ackno <= s.maxSeq { NewDataAcked(c, s, a, load); } else { TooMuchAcked(c, s, a, load); }
        } else if Connected(s) {
          OldAckMovesNothing(c, s, a, load);
        }
      case _ =>
    }
  }

  lemma OldAckMovesNothing(c: Config, s: Sender, a: Ack, load: Load)
    requires Connected(s) && a.ackno <= s.highestAck <= s.maxSeq
    ensures Step(c, s, Acked(a, load)).0.highestAck == s.highestAck
  {
    if s.state == SynReceived && a.ackno < s.highestAck {
    } else {
      AckInOpen(c, s, a, load);
      OldAckInOpen(c, Opening(s), a, load);
    }
  }

  lemma OldAckInOpen(c: Config, s: Sender, a: Ack, load: Load)
    requires a.ackno <= s.highestAck
    ensures AckWhenOpen(c, s, a, load).0.highestAck == s.highestAck
  {
    if Triggers(c, s, a) {
      var s1 := s.(dupAcks := s.dupAcks + 1);
      OutputAdvances(c, s1.(recover := s1.maxSeq, recoverByTimeout := false), a.ackno, load);
      assert AckWhenOpen(c, s, a, load) == FastRetransmit(c, s1, a.ackno, load);
    }
  }

  /** For all runs without a restart: what counts as acknowledged is the largest number that was
      acknowledged after it had been sent. */
  lemma {:induction false} AckedIsLargest(c: Config, s: Sender, evs: seq<Event>)
    requires Bounded(c, s) && forall k :: 0 <= k < |evs| ==> !evs[k].Restart?
    ensures Run(c, s, evs).highestAck == LargestAcked(c, s, evs)
    decreases |evs|
  {
    if evs != [] {
      var before := evs[..|evs| - 1];
      AckedIsLargest(c, s, before);
      NothingIsTakenBack(c, s, before);
      StepAcks(c, Run(c, s, before), evs[|evs| - 1]);
    }
  }

  // ---------- What goes out ----------

  /** How much `output` can send from `from` on: the data at hand and the window allow it. */
  predicate CanSend(c: Config, s: Sender, from: int, load: Load, len: nat) {
    from + len <= s.curSeq + c.iss && from + len <= s.highestAck + load.window * c.maxSeg
  }

  /** The packet takes the last data at hand. */
  predicate Takes(c: Config, s: Sender, from: int, p: Sent)
    requires p.Packet?
  {
    p.len > 0 && from + p.len == s.curSeq + c.iss
  }

  /** A packet carries as much as a segment, the data at hand and the window allow, or nothing
      together with a SYN. It is a FIN exactly when the connection is being closed, or is to
      be closed with the last data, and no data is left behind. What is sent for the first time moves `t_seqno_` on; `maxseq_` follows. */
  lemma OutputSends(c: Config, s: Sender, from: int, load: Load)
    requires Output(c, s, from, load).1.Packet?
    ensures var (s', p) := Output(c, s, from, load);
            && p.syn == (s.state == SynSent || s.state == SynReceived)
            && (if p.syn then p.len == 0
                else 0 <= p.len <= c.maxSeg
                     && (p.len > 0 ==> CanSend(c, s, from, load, p.len))
                     && (p.len < c.maxSeg ==> !CanSend(c, s, from, load, p.len + 1)))
            && p.fin == ((s.state == FinWait1 || s.state == LastAck || (Takes(c, s, from, p) && s.closeOnEmpty))
                         && (p.len == 0 || Takes(c, s, from, p)))
            && s'.state == (if Takes(c, s, from, p) && s.closeOnEmpty then FinWait1 else s.state)
            && (p.seqno == from || (p.fin && s.sentFin && p.seqno == from - 1))
            && s'.tSeqno == s.tSeqno + p.len + (if p.syn && !s.sentSyn then 1 else 0) + (if p.fin && !s.sentFin then 1 else 0)
            && s'.maxSeq == (if s.maxSeq < s'.tSeqno then s'.tSeqno else s.maxSeq)
            && s'.sentSyn == (s.sentSyn || p.syn) && s'.sentFin == (s.sentFin || p.fin) && !s'.ackNow
  {
  }

  /** Something goes out whenever an acknowledgement, a SYN or a FIN is due, a whole segment can
      be sent, or the last data at hand, or anything again. When nothing does, the numbers
      stay. */
  lemma OutputGoes(c: Config, s: Sender, from: int, load: Load)
    requires c.maxSeg > 0
    ensures var (s', p) := Output(c, s, from, load);
            var last := s.curSeq + c.iss - from;
            && (s.ackNow || load.needSend || s.state == SynSent || s.state == SynReceived ==> p.Packet?)
            && (CanSend(c, s, from, load, c.maxSeg) ==> p.Packet?)
            && (0 < last <= c.maxSeg && CanSend(c, s, from, load, last) ==> p.Packet?)
            && (from < s.maxSeq && CanSend(c, s, from, load, 1) ==> p.Packet?)
            && ((s.state == FinWait1 || s.state == LastAck) && !CanSend(c, s, from, load, 1) ==> p.Packet?)
            && (p == Nothing ==> s'.tSeqno == s.tSeqno && s'.maxSeq == s.maxSeq && s'.ackNow == s.ackNow)
  {
  }

  // ---------- What was sent ----------

  /** The first sequence number after a packet. */
  function End(p: Sent): int
    requires p.Packet?
  {
    p.seqno + p.len + (if p.syn then 1 else 0) + (if p.fin then 1 else 0)
  }

  /** `output` sends no more than a segment, only data that it has, and only inside the
      window. */
  lemma OutputStaysInWindow(c: Config, s: Sender, seqno: int, load: Load)
    requires Output(c, s, seqno, load).1.Packet?
    ensures var p := Output(c, s, seqno, load).1;
            p.len > 0 ==>
              && p.len <= c.maxSeg
              && p.seqno + p.len <= s.curSeq + c.iss
              && p.seqno + p.len <= s.highestAck + load.window * c.maxSeg
  {
  }

  /** The largest end of a packet sent so far bounds `maxseq_`. */
  ghost predicate Honest(s: Sender, top: int) {
    s.maxSeq <= top
  }

  function Top(top: int, p: Sent): int {
    if p.Packet? then Max(top, End(p)) else top
  }

  /** The SYN or FIN of the packet, if it is sent for the first time: it counts. */
  function FirstFlags(c: Config, s: Sender, from: int, load: Load): nat {
    (if Syn(s) && !s.sentSyn then 1 else 0) + (if Fin(c, s, from, load) && !s.sentFin then 1 else 0)
  }

  /** The SYN or FIN of the packet, if it is sent again: it does not. */
  function RepeatedFlags(c: Config, s: Sender, from: int, load: Load): nat {
    (if Syn(s) && s.sentSyn then 1 else 0) + (if Fin(c, s, from, load) && s.sentFin then 1 else 0)
  }

  /** `output` adds what it sends to `t_seqno_`, not to the number it sends from. Something goes
      out, from a number further back than its repeated flags make up for, and `t_seqno_` and
      its length together pass everything sent so far. */
  predicate Overstates(c: Config, s: Sender, from: int, load: Load, top: int) {
    && Goes(c, s, from, load)
    && s.tSeqno - from > RepeatedFlags(c, s, from, load)
    && s.tSeqno + FirstFlags(c, s, from, load) + DataLen(c, s, from, load) > top
  }

  /** After `output`, `maxseq_` is covered by what was sent in exactly the other cases. */
  lemma OutputOverstatesExactly(c: Config, s: Sender, from: int, load: Load, top: int)
    requires s.tSeqno <= s.maxSeq && Honest(s, top)
    ensures var (s', p) := Output(c, s, from, load);
            Honest(s', Top(top, p)) <==> !Overstates(c, s, from, load, top)
  {
  }

  /** And so for a fast retransmission, which sends from an acknowledged number. With `top` at
      `maxseq_` this says when `maxseq_`, documented as the largest number sent, becomes
      larger than that. */
  lemma FastRetransmitOverstates(c: Config, s: Sender, from: int, load: Load, top: int)
    requires s.tSeqno <= s.maxSeq && Honest(s, top)
    ensures var (s', p) := FastRetransmit(c, s, from, load);
            Honest(s', Top(top, p)) <==> !Overstates(c, s, from, load, top)
  {
    var s0 := s.(recover := s.maxSeq, recoverByTimeout := false);
    OutputOverstatesExactly(c, s0, from, load, top);
    assert Overstates(c, s0, from, load, top) <==> Overstates(c, s, from, load, top);
  }

  function RunTop(c: Config, s: Sender, top: int, evs: seq<Event>): int {
    if evs == [] then top
    else
      var n := |evs| - 1;
      Top(RunTop(c, s, top, evs[..n]), Step(c, Run(c, s, evs[..n]), evs[n]).1)
  }

  /** The sender as the processing of an open connection finds it. */
  function Opening(s: Sender): Sender {
    if s.state == SynReceived then s.(state := Established) else s
  }

  /** The event sends from another number than `t_seqno_`, and overstates. */
  predicate Oversteps(c: Config, s: Sender, ev: Event, top: int) {
    match ev
    case Acked(a, load) =>
      && s.state != Closed && s.state != Listen && s.state != SynSent
      && Triggers(c, s, a)
      && Overstates(c, Opening(s), a.ackno, load, top)
    case Connect(load) => Overstates(c, s.(state := SynSent), c.iss, load, top)
    case _ => false
  }

  lemma CountingChangesNothing(c: Config, s: Sender, from: int, load: Load, top: int)
    ensures Overstates(c, s.(dupAcks := s.dupAcks + 1), from, load, top) <==> Overstates(c, s, from, load, top)
  {
  }

  lemma TriggeringAck(c: Config, s: Sender, a: Ack, load: Load)
    requires s.state != Closed && s.state != Listen && s.state != SynSent
    requires s.highestAck <= s.maxSeq && Triggers(c, s, a)
    ensures var s0 := Opening(s);
            AckIn(c, s, a, load) == FastRetransmit(c, s0.(dupAcks := s0.dupAcks + 1), a.ackno, load)
  {
  }

  lemma TriggeredAckExactly(c: Config, s: Sender, a: Ack, load: Load, top: int, s1: Sender)
    requires s1.tSeqno <= s1.maxSeq && Honest(s1, top)
    requires AckIn(c, s, a, load) == FastRetransmit(c, s1, a.ackno, load)
    ensures Honest(AckIn(c, s, a, load).0, Top(top, AckIn(c, s, a, load).1)) <==>
            !Overstates(c, s1, a.ackno, load, top)
  {
    FastRetransmitOverstates(c, s1, a.ackno, load, top);
  }

  lemma AckOverstepsExactly(c: Config, s: Sender, a: Ack, load: Load, top: int)
    requires Bounded(c, s) && Honest(s, top)
    ensures Honest(AckIn(c, s, a, load).0, Top(top, AckIn(c, s, a, load).1)) <==>
            !Oversteps(c, s, Acked(a, load), top)
  {
    if s.state != Closed && s.state != Listen && s.state != SynSent && Triggers(c, s, a) {
      var s0 := Opening(s);
      TriggeringAck(c, s, a, load);
      TriggeredAckExactly(c, s, a, load, top, s0.(dupAcks := s0.dupAcks + 1));
      CountingChangesNothing(c, s0, a.ackno, load, top);
    } else {
      QuietAck(c, s, a, load);
    }
  }

  /** Without a fast retransmission an acknowledgement sends nothing and keeps `maxseq_`. */
  lemma QuietAck(c: Config, s: Sender, a: Ack, load: Load)
    requires s.state == Closed || s.state == Listen || s.state == SynSent || !Triggers(c, s, a)
    ensures AckIn(c, s, a, load).0.maxSeq == s.maxSeq && AckIn(c, s, a, load).1 == Nothing
  {
  }

  lemma StepOverstepsExactly(c: Config, s: Sender, ev: Event, top: int)
    requires Bounded(c, s) && Honest(s, top)
    ensures Honest(Step(c, s, ev).0, Top(top, Step(c, s, ev).1)) <==> !Oversteps(c, s, ev, top)
  {
    match ev {
      case Send(load) => OutputOverstatesExactly(c, s, s.tSeqno, load, top);
      case Connect(load) => OutputOverstatesExactly(c, s.(state := SynSent), c.iss, load, top);
      case Acked(a, load) => AckOverstepsExactly(c, s, a, load, top);
      case _ =>
    }
  }

  /** `maxseq_` was covered by what had been sent at every moment. */
  ghost predicate AlwaysHonest(c: Config, s: Sender, top: int, evs: seq<Event>)
    decreases |evs|
  {
    && Honest(Run(c, s, evs), RunTop(c, s, top, evs))
    && (evs != [] ==> AlwaysHonest(c, s, top, evs[..|evs| - 1]))
  }

  ghost predicate NeverOversteps(c: Config, s: Sender, top: int, evs: seq<Event>)
    decreases |evs|
  {
    evs != [] ==>
      var before := evs[..|evs| - 1];
      && NeverOversteps(c, s, top, before)
      && !Oversteps(c, Run(c, s, before), evs[|evs| - 1], RunTop(c, s, top, before))
  }

  /** In all runs: no number below `maxseq_` is ever left out, so that some packet reached
      that far, if and only if no event oversteps. */
  lemma {:induction false} MaxSeqWasSentExactly(c: Config, s: Sender, top: int, evs: seq<Event>)
    requires Bounded(c, s) && Honest(s, top)
    ensures AlwaysHonest(c, s, top, evs) <==> NeverOversteps(c, s, top, evs)
    decreases |evs|
  {
    if evs != [] {
      var before := evs[..|evs| - 1];
      MaxSeqWasSentExactly(c, s, top, before);
      NothingIsTakenBack(c, s, before);
      if Honest(Run(c, s, before), RunTop(c, s, top, before)) {
        StepOverstepsExactly(c, Run(c, s, before), evs[|evs| - 1], RunTop(c, s, top, before));
      }
    }
  }

  // ---------- Two runs that go wrong ----------

  /** A run, what it leads to, and how far it has sent. */
  ghost predicate Leads(c: Config, s: Sender, evs: seq<Event>, to: Sender, top: int) {
    Run(c, s, evs) == to && RunTop(c, s, 0, evs) == top
  }

  lemma LeadsOn(c: Config, s: Sender, evs: seq<Event>, before: Sender, top: int, ev: Event, after: Sender, p: Sent)
    requires Leads(c, s, evs, before, top) && Step(c, before, ev) == (after, p)
    ensures Leads(c, s, evs + [ev], after, Top(top, p))
  {
  }

  const EXAMPLE: Config := Config(0, 1000, 3, false, false, false, false)

  /** One segment of 1000 bytes is out, and its first byte is acknowledged again and again. */
  const WAITING: Sender :=
    Sender(Established, 5001, 1, 1001, 1001, true, false, false, false, 0, 0, false)

  const AMPLE: Load := Load(10, 10.0, false)
  const AGAIN: Event := Acked(Ack(1, 0, false, true), AMPLE)

  /** A sender that has just been restarted, and the steps by which it comes to wait. */
  const RESTARTED: Sender := Sender(Closed, 0, 0, 0, 0, false, false, false, false, 0, 0, false)
  const ASKING: Sender := RESTARTED.(state := SynSent, tSeqno := 1, maxSeq := 1, sentSyn := true)
  const ANSWERED: Sender := ASKING.(state := Established, highestAck := 1, ackNow := true)
  const CONNECTING: Event := Connect(AMPLE)
  const FILLING: Event := Move(Established, 5001, false)
  const SENDING: Event := Send(AMPLE)

  lemma SetupRun() returns (evs: seq<Event>)
    ensures Leads(EXAMPLE, RESTARTED, evs, WAITING, 1001)
  {
    evs := [CONNECTING];
    assert [] + [CONNECTING] == evs;
    LeadsOn(EXAMPLE, RESTARTED, [], RESTARTED, 0, CONNECTING, ASKING, Packet(0, 0, true, false));
    LeadsOn(EXAMPLE, RESTARTED, evs, ASKING, 1, AGAIN, ANSWERED, Nothing);
    evs := evs + [AGAIN];
    LeadsOn(EXAMPLE, RESTARTED, evs, ANSWERED, 1, FILLING, ANSWERED.(curSeq := 5001), Nothing);
    evs := evs + [FILLING];
    LeadsOn(EXAMPLE, RESTARTED, evs, ANSWERED.(curSeq := 5001), 1, SENDING, WAITING, Packet(1, 1000, false, false));
    evs := evs + [SENDING];
  }

  lemma ThreeDuplicates(from: Sender, evs: seq<Event>) returns (evs': seq<Event>, s: Sender)
    requires Leads(EXAMPLE, from, evs, WAITING, 1001)
    ensures evs' == evs + [AGAIN] + [AGAIN] + [AGAIN]
    ensures Leads(EXAMPLE, from, evs', s, 1001) && s.maxSeq == 2001
  {
    assert WAITING.(dupAcks := 0) == WAITING;
    LeadsOn(EXAMPLE, from, evs, WAITING, 1001, AGAIN, WAITING.(dupAcks := 1), Nothing);
    LeadsOn(EXAMPLE, from, evs + [AGAIN], WAITING.(dupAcks := 1), 1001, AGAIN, WAITING.(dupAcks := 2), Nothing);
    s := Step(EXAMPLE, WAITING.(dupAcks := 2), AGAIN).0;
    evs' := evs + [AGAIN] + [AGAIN] + [AGAIN];
    LeadsOn(EXAMPLE, from, evs + [AGAIN] + [AGAIN], WAITING.(dupAcks := 2), 1001, AGAIN, s, Packet(1, 1000, false, false));
  }

  /** An ordinary run, from a restart to a fast retransmission, after which `maxseq_` is 2001
      though nothing beyond 1001 was ever sent. */
  lemma FastRetransmitRun() returns (evs: seq<Event>, s: Sender)
    ensures RESTARTED == Step(EXAMPLE, RESTARTED, Restart(Closed)).0
    ensures Ordered(EXAMPLE, RESTARTED) && Honest(RESTARTED, 0)
    ensures Leads(EXAMPLE, RESTARTED, evs, s, 1001) && s.maxSeq == 2001
    ensures !AlwaysHonest(EXAMPLE, RESTARTED, 0, evs)
  {
    evs := SetupRun();
    evs, s := ThreeDuplicates(RESTARTED, evs);
  }

  /** The connection is over, the sender listens, and somebody connects. */
  const OVER: Event := Move(Closed, 0, false)
  const LISTENING: Event := Move(Listen, 0, false)
  const REOPENING: seq<Event> := [] + [CONNECTING] + [AGAIN] + [OVER] + [LISTENING]

  lemma ReopeningRun()
    ensures Leads(EXAMPLE, RESTARTED, REOPENING, ANSWERED.(state := Listen), 1)
  {
    LeadsOn(EXAMPLE, RESTARTED, [], RESTARTED, 0, CONNECTING, ASKING, Packet(0, 0, true, false));
    LeadsOn(EXAMPLE, RESTARTED, [] + [CONNECTING], ASKING, 1, AGAIN, ANSWERED, Nothing);
    LeadsOn(EXAMPLE, RESTARTED, [] + [CONNECTING] + [AGAIN], ANSWERED, 1, OVER, ANSWERED.(state := Closed), Nothing);
    LeadsOn(EXAMPLE, RESTARTED, [] + [CONNECTING] + [AGAIN] + [OVER], ANSWERED.(state := Closed), 1,
            LISTENING, ANSWERED.(state := Listen), Nothing);
  }

  /** A run in which the sender listens again without a restart: when a connection is accepted,
      0 comes next although 1 is acknowledged. */
  lemma ReopenedRun()
    ensures RESTARTED == Step(EXAMPLE, RESTARTED, Restart(Closed)).0 && Ordered(EXAMPLE, RESTARTED)
    ensures var s := Run(EXAMPLE, RESTARTED, REOPENING + [Opened]);
            s.highestAck == 1 && s.tSeqno == 0 && !Ordered(EXAMPLE, s)
    ensures Ordered(EXAMPLE, Run(EXAMPLE, RESTARTED, REOPENING))
  {
    ReopeningRun();
  }
}
