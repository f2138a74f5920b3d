/**
 The route table entry of AOMDV as an object: its path list, the counter
 `rt_num_paths_` kept beside it, and the path operations of `aomdv/aomdv_rtable.cc` as the
 loops they are.
 */
module AomdvTable {
  import opened Basics
  import opened AomdvModel
  import opened AomdvLoopFreedom

  class RtEntry {
    const dst: Addr
    var seqno: nat
    var advertised: Advertised
    var paths: seq<Path>
    var numPaths: int
    var highestHeard: nat
    var error: bool
    var flag: Flag
    var lastHopCount: nat
    var lastTtl: nat
    var reqCnt: nat

    /** The counter agrees with the list. */
    ghost predicate Valid()
      reads this
    {
      numPaths == |paths|
    }

    function Model(): Entry
      reads this
    {
      Entry(seqno, advertised, paths, highestHeard, error, flag, lastHopCount, lastTtl, reqCnt)
    }

    ghost predicate Is(e: Entry)
      reads this
    {
      Valid() && Model() == e
    }

    constructor (d: Addr)
      ensures dst == d && Valid() && Model() == FRESH
    {
      dst := d;
      seqno, advertised, paths, numPaths := 0, NotYet, [], 0;
      highestHeard, error, flag := 0, false, Down;
      lastHopCount, lastTtl, reqCnt := INFINITY2, 0, 0;
    }

    method PathInsert(p: Path)
      requires Valid()
      modifies this`paths, this`numPaths
      ensures Valid() && paths == old(paths) + [p]
    {
      paths := paths + [p];
      numPaths := numPaths + 1;
    }

    method PathLookup(id: Addr) returns (k: nat)
      ensures k == Through(paths, id)
    {
      k := 0;
      while k < |paths|
        invariant k <= |paths|
        invariant Through(paths, id) == k + Through(paths[k..], id)
      {
        if paths[k].nexthop == id {
          return;
        }
        assert paths[k..][1..] == paths[k + 1..];
        k := k + 1;
      }
    }

    method DisjointPathLookup(nexthop: Addr, lasthop: Addr) returns (k: nat)
      ensures k == Between(paths, nexthop, lasthop)
    {
      k := 0;
      while k < |paths|
        invariant k <= |paths|
        invariant Between(paths, nexthop, lasthop) == k + Between(paths[k..], nexthop, lasthop)
      {
        if paths[k].nexthop == nexthop && paths[k].lasthop == lasthop {
          return;
        }
        assert paths[k..][1..] == paths[k + 1..];
        k := k + 1;
      }
    }

    method IsNewDisjointPath(nexthop: Addr, lasthop: Addr) returns (b: bool)
      ensures b == NewDisjoint(paths, nexthop, lasthop)
    {
      for k := 0 to |paths|
        invariant forall j :: 0 <= j < k ==> paths[j].nexthop != nexthop && paths[j].lasthop != lasthop
      {
        if paths[k].nexthop == nexthop || paths[k].lasthop == lasthop {
          return false;
        }
      }
      return true;
    }

    method PathLookupLasthop(id: Addr) returns (k: nat)
      ensures k == EndingAt(paths, id)
    {
      k := 0;
      while k < |paths|
        invariant k <= |paths|
        invariant EndingAt(paths, id) == k + EndingAt(paths[k..], id)
      {
        if paths[k].lasthop == id {
          return;
        }
        assert paths[k..][1..] == paths[k + 1..];
        k := k + 1;
      }
    }

    /** Delete the first path through `id`, if there is one. */
    method PathDelete(id: Addr)
      requires Valid()
      modifies this`paths, this`numPaths
      ensures Valid() && paths == DropAt(old(paths), Through(old(paths), id))
    {
      var k := PathLookup(id);
      if k < |paths| {
        paths := paths[..k] + paths[k + 1..];
        numPaths := numPaths - 1;
      }
    }

    method PathDeleteAll()
      modifies this`paths, this`numPaths
      ensures Valid() && paths == []
    {
      while paths != []
        decreases |paths|
      {
        paths := paths[1..];
      }
      numPaths := 0;
    }

    method PathEmpty() returns (b: bool)
      requires Valid()
      ensures b <==> paths == []
    {
      if paths != [] {
        assert numPaths > 0;
        b := false;
      } else {
        assert numPaths == 0;
        b := true;
      }
    }

    /** Remove the first path of greatest length, if any path has positive length. */
    method PathDeleteLongest()
      requires Valid()
      modifies this`paths, this`numPaths
      ensures Valid()
      ensures Longest(old(paths)) == 0 ==> paths == old(paths)
      ensures Longest(old(paths)) > 0 ==>
        exists k :: 0 <= k < |old(paths)| && paths == DropAt(old(paths), k)
          && old(paths)[k].hopcount == Longest(old(paths))
          && forall j :: 0 <= j < k ==> old(paths)[j].hopcount < Longest(old(paths))
    {
      var k: nat, max := |paths|, 0;
      for j := 0 to |paths|
        invariant k <= |paths|
        invariant forall i :: 0 <= i < j ==> paths[i].hopcount <= max
        invariant max == 0 ==> k == |paths|
        invariant max > 0 ==> k < j && paths[k].hopcount == max && forall i :: 0 <= i < k ==> paths[i].hopcount < max
      {
        if paths[j].hopcount > max {
          k, max := j, paths[j].hopcount;
        }
      }
      assert max == Longest(paths);
      if k < |paths| {
        paths := paths[..k] + paths[k + 1..];
        numPaths := numPaths - 1;
        assert paths == DropAt(old(paths), k);
      }
    }

    method GetMaxHopcount() returns (h: nat)
      ensures h == MaxHops(paths)
    {
      var max := 0;
      for j := 0 to |paths|
        invariant forall i :: 0 <= i < j ==> paths[i].hopcount <= max
        invariant max > 0 ==> exists p :: p in paths && p.hopcount == max
      {
        if paths[j].hopcount > max {
          max := paths[j].hopcount;
        }
      }
      assert max == Longest(paths);
      h := if max == 0 then INFINITY2 else max;
    }

    method GetMinHopcount() returns (h: nat)
      ensures h == MinHops(paths)
    {
      h := INFINITY2;
      for j := 0 to |paths|
        invariant h <= INFINITY2
        invariant forall i :: 0 <= i < j ==> h <= paths[i].hopcount
        invariant h < INFINITY2 ==> exists p :: p in paths && p.hopcount == h
      {
        if paths[j].hopcount < h {
          h := paths[j].hopcount;
        }
      }
    }

    /** Restart the scan after every removal, as the source does. */
    method PathPurge(now: real)
      requires Valid()
      modifies this`paths, this`numPaths
      ensures Valid() && paths == Purged(old(paths), now)
    {
      var again := true;
      while again
        invariant Valid()
        invariant Purged(paths, now) == Purged(old(paths), now)
        invariant !again ==> forall k :: 0 <= k < |paths| ==> paths[k].expire >= now
        decreases |paths|, again
      {
        again := false;
        var k := 0;
        while k < |paths|
          invariant k <= |paths| && !again
          invariant unchanged(this`seqno)
          invariant Valid()
          invariant forall j :: 0 <= j < k ==> paths[j].expire >= now
        {
          if paths[k].expire < now {
            again := true;
            PurgedSkips(paths, k, now);
            paths := paths[..k] + paths[k + 1..];
            numPaths := numPaths - 1;
            break;
          }
          k := k + 1;
        }
      }
      NothingToPurge(paths, now);
    }

    // ---------- What the handlers of the agent do to one entry ----------

    method RtDown()
      requires Valid()
      modifies this
      ensures Valid() && Model() == AomdvModel.RtDown(old(Model()))
    {
      if flag == Down {
        return;
      }
      flag := Down;
      advertised := NotYet;
      PathDeleteAll();
    }

    method Advertise()
      requires Valid()
      modifies this`advertised
      ensures Valid() && Model() == AomdvModel.Advertise(old(Model()))
    {
      if advertised == NotYet {
        var h := GetMaxHopcount();
        advertised := Hops(h);
      }
    }

    /** Advertise, and report errors from now on when `mark`. */
    method AdvertiseAndMark(mark: bool)
      requires Valid()
      modifies this`advertised, this`error
      ensures Valid() && Model() == AomdvModel.Advertise(old(Model())).(error := old(error) || mark)
    {
      Advertise();
      if mark {
        error := true;
      }
    }

    method Insert(p: Path)
      requires Valid()
      modifies this`paths, this`numPaths, this`lastHopCount
      ensures Valid() && Model() == AomdvModel.Insert(old(Model()), p)
    {
      PathInsert(p);
      lastHopCount := GetMaxHopcount();
    }

    method Restart(newSeqno: nat, p: Path)
      requires Valid()
      modifies this
      ensures Valid() && Model() == AomdvModel.Restart(old(Model()), newSeqno, p)
    {
      seqno := newSeqno;
      advertised := NotYet;
      PathDeleteAll();
      flag := Up;
      Insert(p);
    }

    method ExtendPath(k: nat, expire: real)
      requires Valid() && k < |paths|
      modifies this`paths
      ensures Valid() && paths == Extend(old(paths), k, expire)
    {
      paths := paths[k := paths[k].(expire := if paths[k].expire < expire then expire else paths[k].expire)];
    }

    /** The reverse-route part of `recvRequest`. */
    method HearRequest(cfg: Config, srcSeqno: nat, p: Path, forMe: bool) returns (verdict: Verdict)
      requires Valid() && p.hopcount >= 1 && Consistent(Model(), srcSeqno, p)
      modifies this
      ensures Valid() && (Model(), verdict) == AomdvModel.HearRequest(cfg, old(Model()), srcSeqno, p, forMe)
    {
      if seqno < srcSeqno {
        Restart(srcSeqno, p);
        return Stored;
      } else if seqno == srcSeqno && Above(advertised, p.hopcount - 1) {
        assert flag == Up;
        var k := DisjointPathLookup(p.nexthop, p.lasthop);
        if k < |paths| {
          assert paths[k] in paths;
          assert paths[k].hopcount == p.hopcount;
          ExtendPath(k, p.expire);
          return Stored;
        }
        var disjoint := IsNewDisjointPath(p.nexthop, p.lasthop);
        if disjoint {
          verdict := NoPath;
          var min := GetMinHopcount();
          if numPaths < cfg.maxPaths && p.hopcount - min <= cfg.lengthDiff {
            Insert(p);
            verdict := Stored;
          }
          min := GetMinHopcount();
          if p.hopcount - min > cfg.lengthDiff {
            return Ignored;
          }
          return;
        }
        if forMe {
          var erp := PathLookupLasthop(p.lasthop);
          if erp == |paths| || p.hopcount > paths[erp].hopcount {
            return Ignored;
          }
        }
        return NoPath;
      }
      return Ignored;
    }

    /** The forward-route part of `recvReply`. */
    method HearReply(cfg: Config, dstSeqno: nat, p: Path) returns (verdict: Verdict)
      requires Valid() && p.hopcount >= 1 && Consistent(Model(), dstSeqno, p)
      modifies this
      ensures Valid() && (Model(), verdict) == AomdvModel.HearReply(cfg, old(Model()), dstSeqno, p)
    {
      if seqno < dstSeqno {
        Restart(dstSeqno, p);
        return Stored;
      } else if seqno == dstSeqno && Above(advertised, p.hopcount - 1) {
        assert flag == Up;
        var k := DisjointPathLookup(p.nexthop, p.lasthop);
        if k < |paths| {
          assert paths[k] in paths;
          assert paths[k].hopcount == p.hopcount;
          ExtendPath(k, p.expire);
          return Stored;
        }
        var disjoint := IsNewDisjointPath(p.nexthop, p.lasthop);
        var min := GetMinHopcount();
        if disjoint && numPaths < cfg.maxPaths && p.hopcount - min <= cfg.lengthDiff {
          Insert(p);
          return Stored;
        }
      }
      return Ignored;
    }

    /** The choice of the time to live in `sendRequest`. */
    method NextTtl() returns (ttl: nat)
      modifies this`lastTtl, this`reqCnt
      ensures (Model(), ttl) == AomdvModel.NextTtl(old(Model()))
    {
      lastTtl := Max(lastTtl, lastHopCount);
      if lastTtl == 0 {
        ttl := TTL_START;
      } else if lastTtl < TTL_THRESHOLD {
        ttl := lastTtl + TTL_INCREMENT;
      } else {
        ttl := NETWORK_DIAMETER;
        reqCnt := reqCnt + 1;
      }
      lastTtl := ttl;
    }

    method SoftReset()
      modifies this`lastTtl, this`reqCnt
      ensures Model() == AomdvModel.SoftReset(old(Model()))
    {
      lastTtl, reqCnt := 0, 0;
    }

    /** One unreachable destination in `recvError`; reports whether to pass it on. */
    method Error(nbr: Addr, unreachable: nat) returns (passOn: bool)
      requires Valid() && (flag == Up ==> seqno % 2 == 0)
      modifies this
      ensures Valid() && Model() == ErrorEntry(old(Model()), nbr, unreachable)
      ensures passOn == ErrorSpreads(old(Model()), nbr, unreachable)
    {
      passOn := false;
      var k := PathLookup(nbr);
      if flag == Up && k < |paths| && seqno <= unreachable {
        assert seqno % 2 == 0;
        PathDelete(nbr);
        highestHeard := Max(highestHeard, unreachable);
        var empty := PathEmpty();
        if empty {
          seqno := highestHeard;
          RtDown();
          if error {
            passOn := true;
            error := false;
          }
        }
      }
    }

    /** One entry in `handle_link_failure`. */
    method Break(nbr: Addr) returns (passOn: bool)
      requires Valid() && (flag == Up ==> seqno % 2 == 0)
      modifies this
      ensures Valid() && Model() == BrokenEntry(old(Model()), nbr)
      ensures passOn == BreakSpreads(old(Model()), nbr)
      ensures passOn ==> seqno == RaisedSeqno(old(Model()))
    {
      passOn := false;
      var k := PathLookup(nbr);
      if flag == Up && k < |paths| {
        assert seqno % 2 == 0;
        PathDelete(nbr);
        var empty := PathEmpty();
        if empty {
          seqno := seqno + 1;
          seqno := Max(seqno, highestHeard);
          if error {
            passOn := true;
            error := false;
          }
          RtDown();
        }
      }
    }

    /** One entry in `rt_purge`. */
    method Purge(now: real)
      requires Valid()
      modifies this
      ensures Valid() && Model() == PurgedEntry(old(Model()), now)
    {
      if flag == Up && 0.0 < now {
        PathPurge(now);
        var empty := PathEmpty();
        if empty {
          seqno := seqno + 1;
          seqno := Max(seqno, highestHeard);
          if seqno % 2 == 0 {
            seqno := seqno + 1;
          }
          RtDown();
        }
      }
    }

    /** A data packet leaves over the first path. */
    method Use(now: real, mine: bool)
      requires Valid() && paths != []
      modifies this`paths, this`error
      ensures Valid() && Model() == UsedEntry(old(Model()), now, mine)
    {
      paths := paths[0 := paths[0].(expire := now + ACTIVE_ROUTE_TIMEOUT)];
      if !mine {
        error := true;
      }
    }
  }

  /** What the assertions of `recvRequest` and `recvReply` need: an entry with the number of
      the packet is up, and a path through its sender is exactly as long as it now says. */
  ghost predicate Consistent(e: Entry, seqno: nat, p: Path) {
    e.seqno == seqno ==>
      e.flag == Up && forall q :: q in e.paths && q.nexthop == p.nexthop ==> q.hopcount == p.hopcount
  }

  lemma {:induction false} PurgedSkips(ps: seq<Path>, k: nat, now: real)
    requires k < |ps| && ps[k].expire < now
    ensures Purged(ps[..k] + ps[k + 1..], now) == Purged(ps, now)
  {
    if k == 0 {
      assert ps[..0] + ps[1..] == ps[1..];
    } else {
      PurgedSkips(ps[1..], k - 1, now);
      assert (ps[..k] + ps[k + 1..])[1..] == ps[1..][..k - 1] + ps[1..][k..];
    }
  }

  lemma {:induction false} NothingToPurge(ps: seq<Path>, now: real)
    requires forall k :: 0 <= k < |ps| ==> ps[k].expire >= now
    ensures Purged(ps, now) == ps
  {
    if ps != [] {
      NothingToPurge(ps[1..], now);
    }
  }
}
