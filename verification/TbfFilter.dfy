/**
 The `TBF` object of `adc/tbf.cc`: its fields, and its methods proved against the step
 functions of `TbfModel`.
 */
module TbfFilter {
  import opened Basics
  import opened TbfModel

  class Tbf {
    const config: Config
    var tokens: real
    var lastUpdateTime: real
    var queue: seq<Packet>
    var timer: Option<real>
    var init: bool

    /** The value of the object. */
    ghost function State(): Filter
      reads this
    {
      Filter(tokens, lastUpdateTime, queue, timer, init)
    }

    constructor (c: Config)
      ensures config == c && State() == INITIAL
    {
      config := c;
      tokens := 0.0;
      lastUpdateTime := 0.0;
      queue := [];
      timer := None;
      init := true;
    }

    method GetUpdatedTokens(now: real) returns (r: real)
      modifies `tokens, `lastUpdateTime
      ensures State() == Refill(config, old(State()), now)
      ensures r == tokens
    {
      tokens := tokens + (now - lastUpdateTime) * config.rate;
      if tokens > config.bucket as real {
        tokens := config.bucket as real;
      }
      lastUpdateTime := now;
      r := tokens;
    }

    /** Sets the timer for the moment at which `p` can be passed on. */
    method Resched(p: Packet, now: real)
      requires config.rate != 0.0
      modifies `timer
      ensures timer == Some(DueAt(config, tokens, p, now))
    {
      timer := Some(now + (Bits(p) - tokens) / config.rate);
    }

    /** A packet arrives; `fate` says whether it was passed on, queued or dropped. */
    method Receive(p: Packet, now: real) returns (fate: Fate)
      requires config.rate != 0.0
      modifies this
      ensures (State(), fate) == Recv(config, old(State()), p, now)
    {
      if init {
        tokens := config.bucket as real;
        lastUpdateTime := now;
        init := false;
      }
      if |queue| != 0 {
        if |queue| < config.qlen {
          queue := queue + [p];
          return Queued;
        }
        return Dropped;
      }
      assert State() == Started(config, old(State()), now);
      var _ := GetUpdatedTokens(now);
      if tokens >= Bits(p) {
        tokens := tokens - Bits(p);
        return Sent;
      }
      if config.qlen != 0 {
        queue := [p];
        Resched(p, now);
        return Queued;
      }
      return Dropped;
    }

    /** The timer fires; the result is the packet passed on, or none where the program
        aborts. */
    method Expire(now: real) returns (out: Option<Packet>)
      requires config.rate != 0.0
      modifies this
      ensures old(queue) == [] ==> out == None && State() == old(State())
      ensures old(queue) != [] ==> out == Some(old(queue[0])) && State() == Timeout(config, old(State()), now)
    {
      if |queue| == 0 {
        return None;
      }
      var p := queue[0];
      queue := queue[1..];
      timer := None;
      var _ := GetUpdatedTokens(now);
      tokens := tokens - Bits(p);
      if |queue| != 0 {
        Resched(queue[0], now);
      }
      return Some(p);
    }
  }
}
